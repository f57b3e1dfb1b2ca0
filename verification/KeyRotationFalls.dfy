/** When, over its inputs, a call sets the stored stage back: the two fault scripts, the rank it starts at,
    and whether the old key is revoked already. */
module KeyRotationFalls {
  import opened Options
  import opened KeyRotation

  /** The state writes of a call, in order, as the failure handler sees them. */
  datatype WriteKind =
    | Steady              // an error leaves the stored stage where it is
    | Advancing(to: nat)  // the file moves on to the stage of this rank
    | Proof               // the file says completed, the handler still knows the state before it

  /** The writes behind the first one, from a stage on. */
  function WritesFrom(rank: nat): seq<WriteKind>
    decreases if rank >= 4 then 0 else 4 - rank
  {
    if rank >= 4 then [Advancing(5), Proof]
    else (if rank == 0 || rank == 2 then [Steady] else []) + ([Advancing(rank + 1)] + WritesFrom(rank + 1))
  }

  function Writes(rank: nat): seq<WriteKind> { [Steady] + WritesFrom(rank) }

  // ---------------------------------------------------------------- what the network lets through

  /** The revoke loop gets on with a reply, or when it finds the old key revoked after an error. */
  function RevokePasses(net: seq<Fault>, revoked: bool, again: bool): Option<seq<Fault>>
    decreases again
  {
    var f, g := FaultOf(net), FaultOf(Rest(net));
    if f.Fine? then Some(Rest(net))
    else if f.Crash? || g.Crash? then None
    else if g.Fine? && (revoked || f.effect) then Some(Rest(Rest(net)))
    else if f.retryable && again then RevokePasses(Rest(Rest(net)), revoked || f.effect, false)
    else None
  }

  /** The rest of the network script when the calls between this stage and the next go through. */
  function StagePasses(rank: nat, net: seq<Fault>, revoked: bool): Option<seq<Fault>> {
    if rank <= 1 then if FaultOf(net).Fine? then Some(Rest(net)) else None
    else if rank == 2 then Some(net)
    else if rank == 3 then RevokePasses(net, revoked, true)
    else if !FaultOf(net).Crash? && FaultOf(Rest(net)).Fine? then Some(Rest(Rest(net)))
    else None
  }

  predicate Reaches(rank: nat, to: nat, net: seq<Fault>, revoked: bool)
    decreases to - rank
  {
    rank >= to
    || (StagePasses(rank, net, revoked).Some? && Reaches(rank + 1, to, StagePasses(rank, net, revoked).value, revoked))
  }

  // ---------------------------------------------------------------- what the disk takes back

  function FaultAt(script: seq<Fault>, i: nat): Fault { if i < |script| then script[i] else Fine }

  /** An error at this write, reached by the call, leaves the file ahead of what the handler stores. */
  predicate Ahead(kind: WriteKind, f: Fault, rank: nat, net: seq<Fault>, revoked: bool) {
    && f.Error?
    && match kind
       case Steady => false
       case Advancing(to) => f.effect && Reaches(rank, to, net, revoked)
       case Proof => Reaches(rank, 5, net, revoked)
  }

  /** The first disk fault is such an error, and the handler's own write takes effect. */
  ghost predicate FallsAt(kinds: seq<WriteKind>, n: nat, disk: seq<Fault>, rank: nat, net: seq<Fault>, revoked: bool) {
    && n < |kinds| && (forall i: nat :: i < n ==> FaultAt(disk, i).Fine?)
    && Ahead(kinds[n], FaultAt(disk, n), rank, net, revoked) && Effective(FaultAt(disk, n + 1))
  }

  ghost predicate StageFalls(rank: nat, net: seq<Fault>, disk: seq<Fault>, revoked: bool) {
    exists n: nat :: FallsAt(Writes(rank), n, disk, rank, net, revoked)
  }

  // ---------------------------------------------------------------- the same, write by write

  predicate FallsFrom(kinds: seq<WriteKind>, disk: seq<Fault>, rank: nat, net: seq<Fault>, revoked: bool)
    decreases |kinds|
  {
    kinds != []
    && if FaultOf(disk).Fine? then FallsFrom(kinds[1..], Rest(disk), rank, net, revoked)
       else Ahead(kinds[0], FaultOf(disk), rank, net, revoked) && Effective(FaultOf(Rest(disk)))
  }

  lemma FaultLater(disk: seq<Fault>, i: nat)
    ensures FaultAt(disk, 0) == FaultOf(disk) && FaultAt(Rest(disk), i) == FaultAt(disk, i + 1)
  {
  }

  lemma {:induction false} FallsFromIs(kinds: seq<WriteKind>, disk: seq<Fault>, rank: nat, net: seq<Fault>,
                                       revoked: bool)
    ensures FallsFrom(kinds, disk, rank, net, revoked) <==> exists n: nat :: FallsAt(kinds, n, disk, rank, net, revoked)
    decreases |kinds|
  {
    if kinds != [] {
      FaultLater(disk, 0);
      if FaultOf(disk).Fine? {
        var tail, rest := kinds[1..], Rest(disk);
        FallsFromIs(tail, rest, rank, net, revoked);
        if n: nat :| FallsAt(tail, n, rest, rank, net, revoked) {
          FallsLater(kinds, n, disk, rank, net, revoked);
        }
        if n: nat :| FallsAt(kinds, n, disk, rank, net, revoked) {
          assert n > 0;
          FallsLater(kinds, n - 1, disk, rank, net, revoked);
        }
      } else {
        assert FallsFrom(kinds, disk, rank, net, revoked) <==> FallsAt(kinds, 0, disk, rank, net, revoked);
        forall n: nat | FallsAt(kinds, n, disk, rank, net, revoked) ensures n == 0 {
        }
      }
    }
  }

  lemma FallsLater(kinds: seq<WriteKind>, n: nat, disk: seq<Fault>, rank: nat, net: seq<Fault>, revoked: bool)
    requires kinds != [] && FaultOf(disk).Fine?
    ensures FallsAt(kinds[1..], n, Rest(disk), rank, net, revoked) <==> FallsAt(kinds, n + 1, disk, rank, net, revoked)
  {
    FaultLater(disk, n);
    FaultLater(disk, n + 1);
    assert n < |kinds[1..]| ==> kinds[1..][n] == kinds[n + 1];
    if FallsAt(kinds[1..], n, Rest(disk), rank, net, revoked) {
      forall i: nat | i < n + 1 ensures FaultAt(disk, i).Fine? {
        if i > 0 { FaultLater(disk, i - 1); }
      }
    }
    if FallsAt(kinds, n + 1, disk, rank, net, revoked) {
      forall i: nat | i < n ensures FaultAt(Rest(disk), i).Fine? { FaultLater(disk, i); }
    }
  }

  /** Writes that belong to later stages see the script that a passed stage leaves. */
  predicate Beyond(kinds: seq<WriteKind>, rank: nat) {
    forall i :: 0 <= i < |kinds| && kinds[i].Advancing? ==> kinds[i].to > rank
  }

  lemma {:induction false} FallsBeyond(kinds: seq<WriteKind>, disk: seq<Fault>, rank: nat, net: seq<Fault>,
                                       revoked: bool)
    requires rank < 5 && Beyond(kinds, rank)
    ensures FallsFrom(kinds, disk, rank, net, revoked) <==>
              && StagePasses(rank, net, revoked).Some?
              && FallsFrom(kinds, disk, rank + 1, StagePasses(rank, net, revoked).value, revoked)
    decreases |kinds|
  {
    if kinds != [] {
      FallsBeyond(kinds[1..], Rest(disk), rank, net, revoked);
    }
  }

  lemma {:induction false} WritesBeyond(rank: nat)
    requires rank <= 4
    ensures Beyond(WritesFrom(rank), rank)
    decreases 4 - rank
  {
    if rank < 4 { WritesBeyond(rank + 1); }
  }

  /** The writes of a stage: past its calls, a steady one where there is one, then the advancing one. */
  lemma StageFallsFrom(rank: nat, disk: seq<Fault>, net: seq<Fault>, revoked: bool)
    requires rank < 4
    ensures var passed := StagePasses(rank, net, revoked);
            var steady := rank == 0 || rank == 2;
            var here := if steady then Rest(disk) else disk;
            FallsFrom(WritesFrom(rank), disk, rank, net, revoked) <==>
              && passed.Some? && (steady ==> FaultOf(disk).Fine?)
              && (TakenBack(here)
                  || (FaultOf(here).Fine?
                      && FallsFrom(WritesFrom(rank + 1), Rest(here), rank + 1, passed.value, revoked)))
  {
    WritesBeyond(rank);
    FallsBeyond(WritesFrom(rank), disk, rank, net, revoked);
    var moving := [Advancing(rank + 1)] + WritesFrom(rank + 1);
    assert moving[1..] == WritesFrom(rank + 1);
    if rank == 0 || rank == 2 {
      assert WritesFrom(rank)[0] == Steady && WritesFrom(rank)[1..] == moving;
    } else {
      assert WritesFrom(rank) == moving;
    }
  }

  /** An advancing write that took effect, was reported as failed, and is overwritten by the handler. */
  predicate TakenBack(disk: seq<Fault>) {
    FaultOf(disk).Error? && FaultOf(disk).effect && Effective(FaultOf(Rest(disk)))
  }

  lemma LastFallsFrom(disk: seq<Fault>, net: seq<Fault>, revoked: bool)
    ensures FallsFrom(WritesFrom(4), disk, 4, net, revoked) <==>
              && StagePasses(4, net, revoked).Some?
              && (TakenBack(disk)
                  || (FaultOf(disk).Fine? && FaultOf(Rest(disk)).Error? && Effective(FaultOf(Rest(Rest(disk))))))
  {
    WritesBeyond(4);
    FallsBeyond(WritesFrom(4), disk, 4, net, revoked);
    assert WritesFrom(4)[1..] == [Proof] && [Proof][1..] == [];
  }

  /** The first write of a call is a steady one. */
  lemma SteadyFallsFrom(rank: nat, disk: seq<Fault>, net: seq<Fault>, revoked: bool)
    ensures FallsFrom(Writes(rank), disk, rank, net, revoked) <==>
              FaultOf(disk).Fine? && FallsFrom(WritesFrom(rank), Rest(disk), rank, net, revoked)
  {
    assert Writes(rank)[1..] == WritesFrom(rank);
  }

  // ---------------------------------------------------------------- truthful disks

  /** Disk faults that are reported truthfully: a write reported as failed did not take effect. */
  ghost predicate Honest(disk: seq<Fault>) {
    forall i :: 0 <= i < |disk| ==> !(disk[i].Error? && disk[i].effect)
  }

  function ProofAt(rank: nat): nat {
    if rank == 0 then 8 else if rank == 1 then 6 else if rank == 2 then 5 else if rank == 3 then 3 else 2
  }

  lemma {:induction false} OneProof(rank: nat)
    requires rank <= 4
    ensures var kinds := WritesFrom(rank);
            |kinds| == ProofAt(rank) && forall i :: 0 <= i < |kinds| ==> (kinds[i].Proof? <==> i == |kinds| - 1)
    decreases 4 - rank
  {
    if rank < 4 { OneProof(rank + 1); }
  }

  lemma ProofComesLast(rank: nat)
    requires rank <= 4
    ensures |Writes(rank)| == ProofAt(rank) + 1
    ensures forall i :: 0 <= i < |Writes(rank)| ==> (Writes(rank)[i].Proof? <==> i == ProofAt(rank))
  {
    OneProof(rank);
  }

  /** On such disks the stage falls exactly when the call gets as far as its proof, the proof fails first,
      and the handler's write takes effect. */
  lemma HonestFallsAtTheProof(rank: nat, net: seq<Fault>, disk: seq<Fault>, revoked: bool)
    requires rank <= 4 && Honest(disk)
    ensures StageFalls(rank, net, disk, revoked) <==>
              && (forall i: nat :: i < ProofAt(rank) ==> FaultAt(disk, i).Fine?)
              && FaultAt(disk, ProofAt(rank)).Error? && Effective(FaultAt(disk, ProofAt(rank) + 1))
              && Reaches(rank, 5, net, revoked)
  {
    ProofComesLast(rank);
    var last := ProofAt(rank);
    assert FallsAt(Writes(rank), last, disk, rank, net, revoked) <==>
             && (forall i: nat :: i < last ==> FaultAt(disk, i).Fine?)
             && FaultAt(disk, last).Error? && Effective(FaultAt(disk, last + 1)) && Reaches(rank, 5, net, revoked);
    forall n: nat | FallsAt(Writes(rank), n, disk, rank, net, revoked) ensures n == last {
      assert !(FaultAt(disk, n).Error? && FaultAt(disk, n).effect);
    }
  }

  lemma {:induction false} QuietNetworkReaches(rank: nat, revoked: bool)
    requires rank <= 5
    ensures Reaches(rank, 5, [], revoked)
    decreases 5 - rank
  {
    if rank < 5 {
      assert StagePasses(rank, [], revoked) == Some([]);
      QuietNetworkReaches(rank + 1, revoked);
    }
  }
}
