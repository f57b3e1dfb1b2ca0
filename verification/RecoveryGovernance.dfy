/** Classification of recovery snapshots: what may be cleaned up, what is protected, what is kept. */
module RecoveryGovernance {
  import opened Options
  import Sorting

  const RUNTIME_OVERLAP := "recovery_root_overlaps_project_runtime"

  datatype Status = Verified | Incomplete | Corrupt | OtherStatus

  /** What the inventory reads about a snapshot. */
  datatype Facts = Facts(id: string, status: Status, created: int, modified: int, bytes: nat, restorable: bool,
                         corrupt: bool, invalid: bool, explicitlyProtected: bool, source: Option<string>,
                         protection: set<string>, findings: set<string>)

  datatype Classification =
    | ProtectedClass | Retained | EligibleByAge | EligibleByCount | IncompleteCandidate | CorruptCandidate | Blocked
    | NeedsReview

  datatype Policy = Policy(maxRetained: nat, maxAge: int, cleanupGrace: int, failureGrace: int)

  datatype FailedOperation = FailedOperation(id: string, failedAt: int)

  // ---------------------------------------------------------------- the ranking

  /** Snapshots a project could be restored from. */
  predicate Usable(f: Facts) { f.status == Verified && f.restorable && !f.invalid }

  function UsableOnes(all: seq<Facts>): (r: seq<Facts>)
    ensures forall f :: f in r <==> f in all && Usable(f)
  {
    if all == [] then []
    else
      assert all == [all[0]] + all[1..];
      (if Usable(all[0]) then [all[0]] else []) + UsableOnes(all[1..])
  }

  predicate NewerFirst(a: Facts, b: Facts) { a.created >= b.created }

  /** Newest first; snapshots of one instant stay in inventory order. */
  function Ranked(all: seq<Facts>): seq<Facts> { Sorting.Sort(UsableOnes(all), NewerFirst) }

  /** The position of an identifier, or -1. */
  function RankOf(ranked: seq<Facts>, id: string): (rank: int)
    ensures -1 <= rank < |ranked| && (rank >= 0 ==> ranked[rank].id == id)
    ensures rank == -1 ==> forall i :: 0 <= i < |ranked| ==> ranked[i].id != id
  {
    if ranked == [] then -1
    else if ranked[0].id == id then 0
    else
      var rest := RankOf(ranked[1..], id);
      if rest < 0 then -1 else rest + 1
  }

  predicate IsLatest(ranked: seq<Facts>, f: Facts) {
    Usable(f) && ranked != [] && ranked[0].id == f.id
  }

  function LatestReason(ranked: seq<Facts>, f: Facts): set<string> {
    if IsLatest(ranked, f) then {"latest_verified_restorable"} else {}
  }

  function ExplicitReason(f: Facts): set<string> {
    if f.explicitlyProtected then {"explicit_server_owned_protection"} else {}
  }

  // ---------------------------------------------------------------- the rules

  function ProtectionOf(ranked: seq<Facts>, f: Facts): set<string> {
    f.protection + LatestReason(ranked, f) + ExplicitReason(f)
  }

  predicate Doubtful(f: Facts) { f.invalid || exists finding <- f.findings :: finding != RUNTIME_OVERLAP }

  function Distance(a: int, b: int): nat { if a <= b then b - a else a - b }

  predicate FailedRecently(f: Facts, failure: FailedOperation, policy: Policy, now: int) {
    && f.source == Some(failure.id) && now - failure.failedAt <= policy.failureGrace
    && Distance(f.modified, failure.failedAt) <= policy.failureGrace
  }

  predicate RecentFailure(f: Facts, failed: seq<FailedOperation>, policy: Policy, now: int) {
    exists i :: 0 <= i < |failed| && FailedRecently(f, failed[i], policy, now)
  }

  function Classify(f: Facts, protection: set<string>, rank: int, failed: seq<FailedOperation>, policy: Policy,
                    now: int): Classification {
    if Doubtful(f) then NeedsReview
    else if protection != {} then ProtectedClass
    else if f.status == Verified && f.restorable then
      if now - f.created > policy.maxAge then EligibleByAge
      else if rank >= policy.maxRetained then EligibleByCount
      else Retained
    else if f.status == Incomplete then
      if RecentFailure(f, failed, policy, now) then Blocked
      else if now - f.created >= policy.cleanupGrace then IncompleteCandidate
      else Blocked
    else if f.status == Corrupt || f.corrupt then
      if now - f.created >= policy.cleanupGrace then CorruptCandidate else Blocked
    else NeedsReview
  }

  function ReasonFor(f: Facts, protection: set<string>, rank: int, failed: seq<FailedOperation>, policy: Policy,
                     now: int): set<string> {
    match Classify(f, protection, rank, failed, policy, now)
    case ProtectedClass => protection
    case Retained => {"within_verified_retention_window"}
    case EligibleByAge => {"verified_snapshot_exceeds_maximum_age"}
    case EligibleByCount => {"verified_snapshot_exceeds_retained_count"}
    case IncompleteCandidate => {"incomplete_grace_period_elapsed"}
    case CorruptCandidate => {"corrupt_grace_period_elapsed"}
    case Blocked =>
      if f.status != Incomplete then {"corrupt_grace_period_active"}
      else if RecentFailure(f, failed, policy, now) then {"recent_failed_operation_evidence"}
      else {"incomplete_grace_period_active"}
    case NeedsReview =>
      if !Doubtful(f) then {"snapshot_state_not_cleanup_eligible"}
      else if f.corrupt then {"manifest_invalid"} else {"identity_or_path_requires_review"}
  }

  function Verdict(ranked: seq<Facts>, f: Facts, failed: seq<FailedOperation>, policy: Policy,
                   now: int): Classification {
    Classify(f, ProtectionOf(ranked, f), RankOf(ranked, f.id), failed, policy, now)
  }

  // ---------------------------------------------------------------- the classifier at work

  class Snapshot {
    const facts: Facts
    var protection: set<string>
    var classification: Option<Classification>
    var reasons: set<string>

    constructor (facts: Facts)
      ensures this.facts == facts && protection == facts.protection && classification == None && reasons == {}
    {
      this.facts := facts;
      protection, classification, reasons := facts.protection, None, {};
    }
  }

  function FactsOf(snapshots: seq<Snapshot>): (all: seq<Facts>)
    ensures |all| == |snapshots| && forall i :: 0 <= i < |snapshots| ==> all[i] == snapshots[i].facts
  {
    if snapshots == [] then [] else [snapshots[0].facts] + FactsOf(snapshots[1..])
  }

  /** Directory names: two usable snapshots of a project have two identifiers. */
  predicate DistinctUsable(all: seq<Facts>) {
    forall i, j :: 0 <= i < j < |all| && Usable(all[i]) && Usable(all[j]) ==> all[i].id != all[j].id
  }

  method HasRecentFailedOperation(f: Facts, failed: seq<FailedOperation>, policy: Policy, now: int)
    returns (recent: bool)
    ensures recent == RecentFailure(f, failed, policy, now)
  {
    for i := 0 to |failed|
      invariant forall k :: 0 <= k < i ==> !FailedRecently(f, failed[k], policy, now)
    {
      if f.source != Some(failed[i].id) { continue; }
      if now - failed[i].failedAt <= policy.failureGrace
         && Distance(f.modified, failed[i].failedAt) <= policy.failureGrace
      {
        return true;
      }
    }
    return false;
  }

  /** Gives one snapshot its class and its reasons, from the protection it has so far. */
  method ClassifySnapshot(s: Snapshot, rank: int, failed: seq<FailedOperation>, policy: Policy, now: int)
    modifies s
    ensures s.protection == old(s.protection) + ExplicitReason(s.facts)
    ensures s.classification == Some(Classify(s.facts, s.protection, rank, failed, policy, now))
    ensures s.reasons == ReasonFor(s.facts, s.protection, rank, failed, policy, now)
  {
    var f := s.facts;
    if f.explicitlyProtected { s.protection := s.protection + {"explicit_server_owned_protection"}; }
    var given: Classification, why: set<string>;
    if Doubtful(f) {
      given, why := NeedsReview, {if f.corrupt then "manifest_invalid" else "identity_or_path_requires_review"};
    } else if s.protection != {} {
      given, why := ProtectedClass, s.protection;
    } else if f.status == Verified && f.restorable {
      if now - f.created > policy.maxAge {
        given, why := EligibleByAge, {"verified_snapshot_exceeds_maximum_age"};
      } else if rank >= policy.maxRetained {
        given, why := EligibleByCount, {"verified_snapshot_exceeds_retained_count"};
      } else {
        given, why := Retained, {"within_verified_retention_window"};
      }
    } else if f.status == Incomplete {
      var recent := HasRecentFailedOperation(f, failed, policy, now);
      if recent {
        given, why := Blocked, {"recent_failed_operation_evidence"};
      } else if now - f.created >= policy.cleanupGrace {
        given, why := IncompleteCandidate, {"incomplete_grace_period_elapsed"};
      } else {
        given, why := Blocked, {"incomplete_grace_period_active"};
      }
    } else if f.status == Corrupt || f.corrupt {
      if now - f.created >= policy.cleanupGrace {
        given, why := CorruptCandidate, {"corrupt_grace_period_elapsed"};
      } else {
        given, why := Blocked, {"corrupt_grace_period_active"};
      }
    } else {
      given, why := NeedsReview, {"snapshot_state_not_cleanup_eligible"};
    }
    s.classification, s.reasons := Some(given), why;
  }

  predicate Distinct(snapshots: seq<Snapshot>) {
    forall i, j :: 0 <= i < j < |snapshots| ==> snapshots[i] != snapshots[j]
  }

  method ProtectLatest(snapshots: seq<Snapshot>, ranked: seq<Facts>)
    requires Distinct(snapshots) && forall s :: s in snapshots ==> s.protection == s.facts.protection
    modifies snapshots
    ensures forall s :: s in snapshots ==> s.protection == s.facts.protection + LatestReason(ranked, s.facts)
  {
    for i := 0 to |snapshots|
      invariant forall k :: 0 <= k < i ==>
                  snapshots[k].protection == snapshots[k].facts.protection + LatestReason(ranked, snapshots[k].facts)
      invariant forall k :: i <= k < |snapshots| ==> snapshots[k].protection == snapshots[k].facts.protection
    {
      var s := snapshots[i];
      if ranked != [] && Usable(s.facts) && s.facts.id == ranked[0].id {
        s.protection := s.protection + {"latest_verified_restorable"};
      }
    }
  }

  /** What the classifier leaves in a snapshot. */
  ghost predicate Settled(s: Snapshot, ranked: seq<Facts>, failed: seq<FailedOperation>, policy: Policy, now: int)
    reads s
  {
    && s.protection == ProtectionOf(ranked, s.facts)
    && s.classification == Some(Verdict(ranked, s.facts, failed, policy, now))
    && s.reasons == ReasonFor(s.facts, s.protection, RankOf(ranked, s.facts.id), failed, policy, now)
  }

  method ClassifyEach(snapshots: seq<Snapshot>, ranked: seq<Facts>, failed: seq<FailedOperation>, policy: Policy,
                      now: int)
    requires Distinct(snapshots)
    requires forall s :: s in snapshots ==> s.protection == s.facts.protection + LatestReason(ranked, s.facts)
    modifies snapshots
    ensures forall s :: s in snapshots ==> Settled(s, ranked, failed, policy, now)
  {
    for i := 0 to |snapshots|
      invariant forall k :: i <= k < |snapshots| ==>
                  snapshots[k].protection == snapshots[k].facts.protection + LatestReason(ranked, snapshots[k].facts)
      invariant forall k :: 0 <= k < i ==> Settled(snapshots[k], ranked, failed, policy, now)
    {
      ClassifySnapshot(snapshots[i], RankOf(ranked, snapshots[i].facts.id), failed, policy, now);
      assert Settled(snapshots[i], ranked, failed, policy, now);
    }
  }

  /** Protects the newest usable snapshot, then classifies every one. */
  method ClassifyProjectSnapshots(snapshots: seq<Snapshot>, failed: seq<FailedOperation>, policy: Policy, now: int)
    requires Distinct(snapshots) && DistinctUsable(FactsOf(snapshots))
    requires forall s :: s in snapshots ==> s.protection == s.facts.protection
    modifies snapshots
    ensures forall s :: s in snapshots ==> Settled(s, Ranked(FactsOf(snapshots)), failed, policy, now)
  {
    var ranked := Ranked(FactsOf(snapshots));
    ProtectLatest(snapshots, ranked);
    ClassifyEach(snapshots, ranked, failed, policy, now);
  }
}
