/** The stored stage over failures and re-runs, and the number of revoke calls. */
module KeyRotationStages {
  import opened Options
  import opened KeyRotation
  import opened KeyRotationFalls
  import opened KeyRotationSafety

  /** The stage of one rotation never goes back in the states stored over time. */
  ghost predicate NeverFalls(stored: seq<Rotation>) {
    forall i, j :: 0 <= i < j < |stored| && stored[i].id == stored[j].id ==>
      stored[i].stage.Rank() <= stored[j].stage.Rank()
  }

  /** The file holds the last stored state. */
  ghost predicate Tracked(r: Run) {
    && (r.w.rotation.None? ==> r.stored == [])
    && (r.w.rotation.Some? ==> r.stored != [] && r.stored[|r.stored| - 1] == r.w.rotation.value)
  }

  /** The code works on `rot`, the state it stored last. */
  ghost predicate At(r: Run, rot: Rotation) {
    Tracked(r) && r.w.rotation == Some(rot) && NeverFalls(r.stored)
  }

  ghost predicate Ready(r: Run, rot: Rotation) {
    Inv(r.w) && Fits(r.w, rot) && At(r, rot)
  }

  predicate OldRevoked(w: World, rot: Rotation) {
    rot.oldId in w.agent && w.agent[rot.oldId].status == Revoked
  }

  /** What the end of a call says about the states it stored. */
  ghost predicate Settled(end: (Run, Outcome), falls: bool) {
    Tracked(end.0) && end.0.stored != [] && (NeverFalls(end.0.stored) <==> !falls)
  }

  // ---------------------------------------------------------------- single writes

  lemma Appended(stored: seq<Rotation>, rot: Rotation)
    requires NeverFalls(stored) && stored != []
    requires var last := stored[|stored| - 1]; last.id == rot.id
    ensures NeverFalls(stored + [rot]) <==> stored[|stored| - 1].stage.Rank() <= rot.stage.Rank()
  {
    var all, n := stored + [rot], |stored| - 1;
    assert all[n] == stored[n] && all[n + 1] == rot;
    if stored[n].stage.Rank() <= rot.stage.Rank() {
      forall i, j | 0 <= i < j < |all| && all[i].id == all[j].id ensures all[i].stage.Rank() <= all[j].stage.Rank() {
        assert j == n + 1 && i < n ==> stored[i].stage.Rank() <= stored[n].stage.Rank();
      }
    }
  }

  /** A state of the same rotation at the same stage or a later one is stored. */
  lemma StoreForward(r: Run, rot: Rotation, rot': Rotation)
    requires At(r, rot) && rot'.id == rot.id && rot.stage.Rank() <= rot'.stage.Rank()
    ensures var (r', reply) := Store(r, rot');
            && Tracked(r') && NeverFalls(r'.stored) && r'.stored != [] && (Effective(FaultOf(r.disk)) ==> At(r', rot'))
            && (!Effective(FaultOf(r.disk)) ==> At(r', rot))
  {
    Appended(r.stored, rot');
  }

  /** A stored stage that fits is where the call goes on. */
  lemma StoreReady(r: Run, rot: Rotation, rot2: Rotation, r2: Run)
    requires Ready(r, rot) && Fits(r.w, rot2) && rot2.id == rot.id && rot.stage.Rank() <= rot2.stage.Rank()
    requires rot2.oldId == rot.oldId && FaultOf(r.disk).Fine? && r2 == Store(r, rot2).0
    ensures Ready(r2, rot2) && r2.net == r.net && r2.disk == Rest(r.disk)
            && OldRevoked(r2.w, rot2) == OldRevoked(r.w, rot)
  {
    StoreOk(r, rot2);
    StoreForward(r, rot, rot2);
  }

  lemma CatchForward(r: Run, rot: Rotation)
    requires At(r, rot)
    ensures Settled(Catch(r, rot, Failed), false)
  {
    StoreForward(r, rot, rot.(status := FailedRecoverable));
  }

  /** The handler stores a state behind the one in the file. */
  lemma CatchBehind(r: Run, ahead: Rotation, rot: Rotation, outcome: Outcome)
    requires At(r, ahead) && ahead.id == rot.id && rot.stage.Rank() < ahead.stage.Rank()
    ensures Settled(Catch(r, rot, outcome), Effective(FaultOf(r.disk)))
  {
    Appended(r.stored, rot.(status := FailedRecoverable));
  }

  /** A stage is stored and the call goes on from there. */
  lemma AdvanceThen(r: Run, rot: Rotation, rot2: Rotation, go: (Run, Outcome), end: (Run, Outcome), goFalls: bool)
    requires At(r, rot) && rot2.id == rot.id && rot.stage.Rank() < rot2.stage.Rank()
    requires var (r2, reply) := Store(r, rot2);
             && end == (if reply == Dead then (r2, Died) else if reply != Ok then Catch(r2, rot, Failed) else go)
             && (reply == Ok ==> Settled(go, goFalls))
    ensures Settled(end, TakenBack(r.disk) || (FaultOf(r.disk).Fine? && goFalls))
  {
    StoreForward(r, rot, rot2);
    var r2 := Store(r, rot2).0;
    if FaultOf(r.disk).Error? {
      if FaultOf(r.disk).effect { CatchBehind(r2, rot2, rot, Failed); } else { CatchForward(r2, rot); }
    }
  }

  /** A call or write before the next stage goes through, or ends the call where it stands. */
  lemma PassThen(r1: Run, reply: Reply, rot: Rotation, go: (Run, Outcome), end: (Run, Outcome), goFalls: bool)
    requires At(r1, rot)
    requires end == (if reply == Dead then (r1, Died) else if reply != Ok then Catch(r1, rot, Failed) else go)
    requires reply == Ok ==> Settled(go, goFalls)
    ensures Settled(end, reply == Ok && goFalls)
  {
    CatchForward(r1, rot);
  }

  // ---------------------------------------------------------------- the last stage

  /** Writing the proof, once the rotation is stored as completed. */
  function ProveNow(r3: Run, rot: Rotation): (Run, Outcome) {
    var (r4, reply4) := StoreProof(r3);
    if reply4 == Dead then (r4, Died)
    else if reply4 != Ok then Catch(r4, rot, FailedAfterCompletion)
    else (r4, Finished)
  }

  lemma ProveNowForward(r3: Run, rot: Rotation, done: Rotation)
    requires At(r3, done) && rot.id == done.id && done.stage == Completed && rot.stage == OldKeyRevoked
    ensures Settled(ProveNow(r3, rot), FaultOf(r3.disk).Error? && Effective(FaultOf(Rest(r3.disk))))
  {
    CatchBehind(StoreProof(r3).0, done, rot, FailedAfterCompletion);
  }

  lemma CompleteForward(r: Run, rot: Rotation, previous: Credential, revoked: bool)
    requires At(r, rot) && Inv(r.w) && rot.stage == OldKeyRevoked
    ensures Settled(CompleteStage(r, rot, previous),
                    FallsFrom(WritesFrom(rot.stage.Rank()), r.disk, rot.stage.Rank(), r.net, revoked))
  {
    var (r1, reply1) := Health(r, previous);
    var (r2, reply2) := Health(r1, r1.w.local);
    LastFallsFrom(r.disk, r.net, revoked);
    CatchForward(r2, rot);
    if reply1 != Dead && reply2 == Ok {
      var done := CompletedRotation(rot, r2.w.local.id);
      StoreForward(r2, rot, done);
      var r3 := Store(r2, done).0;
      var proofFalls := FaultOf(r3.disk).Error? && Effective(FaultOf(Rest(r3.disk)));
      if Store(r2, done).1 == Ok { ProveNowForward(r3, rot, done); }
      AdvanceThen(r2, rot, done, ProveNow(r3, rot), CompleteStage(r, rot, previous), proofFalls);
    }
  }

  // ---------------------------------------------------------------- the revoke loop

  /** What one turn of the loop makes of the network script. */
  lemma TryRevokePasses(r: Run, rot: Rotation, last: bool)
    requires Inv(r.w) && Fits(r.w, rot) && rot.stage == LocalPromoted && r.w.rotation == Some(rot)
    ensures var (r', attempt) := TryRevoke(r, rot.oldId, rot.oldKey.value, last);
            var passes := RevokePasses(r.net, OldRevoked(r.w, rot), !last);
            && (attempt == Attempt.Done ==> passes == Some(r'.net))
            && (attempt == Retry ==> !last && passes == RevokePasses(r'.net, OldRevoked(r'.w, rot), false))
            && (attempt == GiveUp || attempt == Gone ==> passes == None)
  {
    var answer := Revoke(r.w.agent, r.w.local, rot.oldId);
    RevokeAnswerOk(r.w, rot);
    var (r1, reply1) := CallAgent(r.(revokes := r.revokes + 1), answer);
    assert OldRevoked(r1.w, rot) == (OldRevoked(r.w, rot) || Effective(FaultOf(r.net)));
    assert Authenticate(r1.w.agent, rot.oldKey.value) == if OldRevoked(r1.w, rot) then KeyRevoked else Ok;
  }

  lemma RevokeTwicePasses(r: Run, rot: Rotation)
    requires Inv(r.w) && Fits(r.w, rot) && rot.stage == LocalPromoted && r.w.rotation == Some(rot)
    ensures var (r', attempt) := RevokeTwice(r, rot.oldId, rot.oldKey.value);
            var passes := RevokePasses(r.net, OldRevoked(r.w, rot), true);
            if attempt == Attempt.Done then passes == Some(r'.net) else passes == None
  {
    TryRevokePasses(r, rot, false);
    TryRevokeOk(r, rot, false);
    var (r1, attempt) := TryRevoke(r, rot.oldId, rot.oldKey.value, false);
    if attempt == Retry {
      TryRevokePasses(r1, rot, true);
      TryRevokeOk(r1, rot, true);
    }
  }

  /** Between its revoke calls and its next write the call stands where it stood. */
  lemma RevokedReady(r: Run, rot: Rotation)
    requires Ready(r, rot) && rot.stage == LocalPromoted
    ensures var (r1, attempt) := RevokeTwice(r, rot.oldId, rot.oldKey.value);
            Ready(r1, rot) && r1.disk == r.disk && (attempt == Attempt.Done ==> Fits(r1.w, Advance(rot, OldKeyRevoked)))
  {
    RevokeTwiceOk(r, rot);
  }

  /** The old key is revoked: the stage is stored and the call goes on. */
  function RevokedNow(r1: Run, rot: Rotation, previous: Credential): (Run, Outcome)
    requires Usable(rot)
  {
    var rot2 := Advance(rot, OldKeyRevoked);
    var (r2, reply2) := Store(r1, rot2);
    if reply2 == Dead then (r2, Died)
    else if reply2 != Ok then Catch(r2, rot, Failed)
    else CompleteStage(r2, rot2, previous)
  }

  lemma RevokedNowForward(r1: Run, rot: Rotation, previous: Credential, revoked: bool)
    requires Ready(r1, rot) && rot.stage == LocalPromoted && Fits(r1.w, Advance(rot, OldKeyRevoked))
    ensures Settled(RevokedNow(r1, rot, previous),
                    TakenBack(r1.disk) || (FaultOf(r1.disk).Fine?
                      && FallsFrom(WritesFrom(rot.stage.Rank() + 1), Rest(r1.disk),
                                   rot.stage.Rank() + 1, r1.net, revoked)))
  {
    var rot2 := Advance(rot, OldKeyRevoked);
    var r2, next := Store(r1, rot2).0, rot.stage.Rank() + 1;
    if FaultOf(r1.disk).Fine? {
      StoreReady(r1, rot, rot2, r2);
      CompleteForward(r2, rot2, previous, revoked);
    }
    AdvanceThen(r1, rot, rot2, CompleteStage(r2, rot2, previous), RevokedNow(r1, rot, previous),
                FallsFrom(WritesFrom(next), Rest(r1.disk), next, r1.net, revoked));
  }

  /** How the loop ends decides how the stage ends. */
  lemma RevokeShape(r: Run, rot: Rotation, previous: Credential)
    requires Usable(rot) && rot.stage.Rank() < 4
    ensures var (r1, attempt) := RevokeTwice(r, rot.oldId, previous);
            RevokeStage(r, rot, previous) == if attempt == Gone then (r1, Died)
              else if attempt != Attempt.Done then Catch(r1, rot, Failed) else RevokedNow(r1, rot, previous)
  {
  }

  lemma RevokeForward(r: Run, rot: Rotation, revoked: bool)
    requires Ready(r, rot) && rot.stage.Rank() >= 3
    requires rot.stage.Rank() == 3 ==> revoked == OldRevoked(r.w, rot)
    ensures Settled(RevokeStage(r, rot, rot.oldKey.value),
                    FallsFrom(WritesFrom(rot.stage.Rank()), r.disk, rot.stage.Rank(), r.net, revoked))
  {
    var previous := rot.oldKey.value;
    if rot.stage.Rank() >= 4 {
      CompleteForward(r, rot, previous, revoked);
    } else {
      StageFallsFrom(rot.stage.Rank(), r.disk, r.net, revoked);
      RevokeTwicePasses(r, rot);
      RevokedReady(r, rot);
      RevokeShape(r, rot, previous);
      var (r1, attempt) := RevokeTwice(r, rot.oldId, previous);
      if attempt == Attempt.Done {
        RevokedNowForward(r1, rot, previous, revoked);
      } else {
        CatchForward(r1, rot);
      }
    }
  }

  // ---------------------------------------------------------------- the stages before it

  /** Writing the credential leaves the stored stage alone. */
  lemma PromotedReady(r: Run, rot: Rotation)
    requires Ready(r, rot) && rot.stage == NewKeyVerified
    ensures var (r1, reply1) := StoreLocal(r, rot.newKey.value);
            && Ready(r1, rot) && r1.net == r.net && r1.disk == Rest(r.disk)
            && OldRevoked(r1.w, rot) == OldRevoked(r.w, rot)
            && (reply1 == Ok ==> Fits(r1.w, Advance(rot, LocalPromoted)))
  {
  }

  /** The credential is written: the stage is stored and the call goes on. */
  function PromotedNow(r1: Run, rot: Rotation, previous: Credential): (Run, Outcome)
    requires Usable(rot)
  {
    var rot2 := Advance(rot, LocalPromoted);
    var (r2, reply2) := Store(r1, rot2);
    if reply2 == Dead then (r2, Died)
    else if reply2 != Ok then Catch(r2, rot, Failed)
    else RevokeStage(r2, rot2, previous)
  }

  lemma PromotedNowForward(r1: Run, rot: Rotation, revoked: bool)
    requires Ready(r1, rot) && rot.stage == NewKeyVerified && Fits(r1.w, Advance(rot, LocalPromoted))
    requires revoked == OldRevoked(r1.w, rot)
    ensures Settled(PromotedNow(r1, rot, rot.oldKey.value),
                    TakenBack(r1.disk) || (FaultOf(r1.disk).Fine?
                      && FallsFrom(WritesFrom(rot.stage.Rank() + 1), Rest(r1.disk),
                                   rot.stage.Rank() + 1, r1.net, revoked)))
  {
    var previous := rot.oldKey.value;
    var rot2 := Advance(rot, LocalPromoted);
    var r2, next := Store(r1, rot2).0, rot.stage.Rank() + 1;
    if FaultOf(r1.disk).Fine? {
      StoreReady(r1, rot, rot2, r2);
      RevokeForward(r2, rot2, revoked);
    }
    AdvanceThen(r1, rot, rot2, RevokeStage(r2, rot2, previous), PromotedNow(r1, rot, previous),
                FallsFrom(WritesFrom(next), Rest(r1.disk), next, r1.net, revoked));
  }

  lemma PromoteShape(r: Run, rot: Rotation, previous: Credential)
    requires Usable(rot) && rot.stage == NewKeyVerified
    ensures var (r1, reply1) := StoreLocal(r, rot.newKey.value);
            PromoteStage(r, rot, previous) == if reply1 == Dead then (r1, Died)
              else if reply1 != Ok then Catch(r1, rot, Failed) else PromotedNow(r1, rot, previous)
  {
  }

  /** The write of the credential decides whether the rest of the call counts. */
  lemma PromoteHere(r: Run, rot: Rotation, revoked: bool, now: (Run, Outcome), end: (Run, Outcome))
    requires Ready(r, rot) && rot.stage == NewKeyVerified
    requires var (r1, reply1) := StoreLocal(r, rot.newKey.value);
             && end == (if reply1 == Dead then (r1, Died) else if reply1 != Ok then Catch(r1, rot, Failed) else now)
             && (reply1 == Ok ==>
                   Settled(now, TakenBack(r1.disk) || (FaultOf(r1.disk).Fine?
                     && FallsFrom(WritesFrom(rot.stage.Rank() + 1), Rest(r1.disk),
                                  rot.stage.Rank() + 1, r1.net, revoked))))
    ensures Settled(end, FallsFrom(WritesFrom(rot.stage.Rank()), r.disk, rot.stage.Rank(), r.net, revoked))
  {
    var rank := rot.stage.Rank();
    var (r1, reply1) := StoreLocal(r, rot.newKey.value);
    PromotedReady(r, rot);
    PassThen(r1, reply1, rot, now, end,
             TakenBack(r1.disk) || (FaultOf(r1.disk).Fine?
               && FallsFrom(WritesFrom(rank + 1), Rest(r1.disk), rank + 1, r1.net, revoked)));
    StageFallsFrom(rank, r.disk, r.net, revoked);
  }

  lemma PromoteForward(r: Run, rot: Rotation, revoked: bool)
    requires Ready(r, rot) && rot.stage.Rank() >= 2
    requires rot.stage.Rank() <= 3 ==> revoked == OldRevoked(r.w, rot)
    ensures Settled(PromoteStage(r, rot, rot.oldKey.value),
                    FallsFrom(WritesFrom(rot.stage.Rank()), r.disk, rot.stage.Rank(), r.net, revoked))
  {
    var previous := rot.oldKey.value;
    if rot.stage.Rank() >= 3 {
      RevokeForward(r, rot, revoked);
    } else {
      PromotedReady(r, rot);
      PromoteShape(r, rot, previous);
      var (r1, reply1) := StoreLocal(r, rot.newKey.value);
      if reply1 == Ok { PromotedNowForward(r1, rot, revoked); }
      PromoteHere(r, rot, revoked, PromotedNow(r1, rot, previous), PromoteStage(r, rot, previous));
    }
  }

  lemma VerifiedReady(r: Run, rot: Rotation)
    requires Ready(r, rot) && rot.stage == NewKeyRegistered
    ensures var (r1, reply1) := Health(r, rot.newKey.value);
            && Ready(r1, rot) && r1.net == Rest(r.net) && r1.disk == r.disk && r1.w == r.w
            && (reply1 == Ok <==> FaultOf(r.net).Fine?) && Fits(r1.w, Advance(rot, NewKeyVerified))
  {
  }

  lemma VerifyForward(r: Run, rot: Rotation, revoked: bool)
    requires Ready(r, rot) && rot.stage.Rank() >= 1
    requires rot.stage.Rank() <= 3 ==> revoked == OldRevoked(r.w, rot)
    ensures Settled(VerifyStage(r, rot, rot.oldKey.value),
                    FallsFrom(WritesFrom(rot.stage.Rank()), r.disk, rot.stage.Rank(), r.net, revoked))
  {
    var previous := rot.oldKey.value;
    if rot.stage.Rank() >= 2 {
      PromoteForward(r, rot, revoked);
    } else {
      StageFallsFrom(rot.stage.Rank(), r.disk, r.net, revoked);
      VerifiedReady(r, rot);
      var (r1, reply1) := Health(r, rot.newKey.value);
      if reply1 == Ok {
        var rot2 := Advance(rot, NewKeyVerified);
        var r2 := Store(r1, rot2).0;
        StoreOk(r1, rot2);
        StoreForward(r1, rot, rot2);
        if Store(r1, rot2).1 == Ok { PromoteForward(r2, rot2, revoked); }
        AdvanceThen(r1, rot, rot2, PromoteStage(r2, rot2, previous), VerifyStage(r, rot, previous),
                    FallsFrom(WritesFrom(rot2.stage.Rank()), r2.disk, rot2.stage.Rank(), r2.net, revoked));
      } else {
        CatchForward(r1, rot);
      }
    }
  }

  /** The registration itself, once the stage before it is stored. */
  function RegisterNow(r1: Run, rot1: Rotation, previous: Credential): (Run, Outcome)
    requires Usable(rot1)
  {
    var (r2, reply2) := CallAgent(r1, Register(r1.w.agent, previous, rot1.newKey.value));
    if reply2 == Dead then (r2, Died)
    else if reply2 != Ok then Catch(r2, rot1, Failed)
    else
      var rot3 := Advance(rot1, NewKeyRegistered);
      var (r3, reply3) := Store(r2, rot3);
      if reply3 == Dead then (r3, Died)
      else if reply3 != Ok then Catch(r3, rot1, Failed)
      else VerifyStage(r3, rot3, previous)
  }

  /** The agent accepts the registration whenever the call gets through. */
  lemma RegisteredReady(r: Run, rot: Rotation)
    requires Ready(r, rot) && rot.stage == Preparing
    ensures var (r2, reply2) := CallAgent(r, Register(r.w.agent, rot.oldKey.value, rot.newKey.value));
            && Ready(r2, rot) && r2.net == Rest(r.net) && r2.disk == r.disk
            && OldRevoked(r2.w, rot) == OldRevoked(r.w, rot)
            && (reply2 == Ok <==> FaultOf(r.net).Fine?) && (reply2 == Ok ==> Fits(r2.w, Advance(rot, NewKeyRegistered)))
  {
    RegisterOk(r, rot);
    AgentAccepts(r.w, rot);
  }

  lemma RegisterNowForward(r: Run, rot: Rotation, revoked: bool)
    requires Ready(r, rot) && rot.stage == Preparing && revoked == OldRevoked(r.w, rot)
    ensures Settled(RegisterNow(r, rot, rot.oldKey.value),
                    FaultOf(r.net).Fine? && (TakenBack(r.disk)
                      || (FaultOf(r.disk).Fine? && FallsFrom(WritesFrom(1), Rest(r.disk), 1, Rest(r.net), revoked))))
  {
    var previous := rot.oldKey.value;
    RegisteredReady(r, rot);
    var (r2, reply2) := CallAgent(r, Register(r.w.agent, previous, rot.newKey.value));
    if reply2 == Ok {
      var rot3 := Advance(rot, NewKeyRegistered);
      var r3 := Store(r2, rot3).0;
      StoreOk(r2, rot3);
      StoreForward(r2, rot, rot3);
      if Store(r2, rot3).1 == Ok { VerifyForward(r3, rot3, revoked); }
      AdvanceThen(r2, rot, rot3, VerifyStage(r3, rot3, previous), RegisterNow(r, rot, previous),
                  FallsFrom(WritesFrom(1), r3.disk, 1, r3.net, revoked));
    } else {
      CatchForward(r2, rot);
    }
  }

  lemma RegisterForward(r: Run, rot: Rotation, revoked: bool)
    requires Ready(r, rot)
    requires rot.stage.Rank() <= 3 ==> revoked == OldRevoked(r.w, rot)
    ensures Settled(RegisterStage(r, rot, rot.oldKey.value),
                    FallsFrom(WritesFrom(rot.stage.Rank()), r.disk, rot.stage.Rank(), r.net, revoked))
  {
    var previous := rot.oldKey.value;
    if rot.stage.Rank() >= 1 {
      VerifyForward(r, rot, revoked);
    } else {
      StageFallsFrom(rot.stage.Rank(), r.disk, r.net, revoked);
      var rot1 := Advance(rot, Preparing);
      var (r1, reply1) := Store(r, rot1);
      StoreOk(r, rot1);
      StoreForward(r, rot, rot1);
      if reply1 == Ok {
        RegisterNowForward(r1, rot1, revoked);
        assert RegisterStage(r, rot, previous) == RegisterNow(r1, rot1, previous);
      } else if reply1 != Dead {
        SteadyCatch(r1, rot, rot1);
      }
    }
  }

  /** After a failed write that may have taken effect the handler stores the same stage. */
  lemma SteadyCatch(r: Run, rot: Rotation, rot1: Rotation)
    requires (At(r, rot) || At(r, rot1)) && rot1.id == rot.id && rot1.stage == rot.stage
    ensures Settled(Catch(r, rot, Failed), false)
  {
    StoreForward(r, r.w.rotation.value, rot.(status := FailedRecoverable));
  }

  // ---------------------------------------------------------------- one call

  ghost predicate Unused(stored: seq<Rotation>, id: string) {
    forall i :: 0 <= i < |stored| ==> stored[i].id != id
  }

  /** The first write stores what is in the file already, or opens a rotation under a new id. */
  lemma FirstStore(r: Run, id: string, mint: Credential)
    requires Inv(r.w) && Mintable(r.w, mint) && Tracked(r) && NeverFalls(r.stored) && Unused(r.stored, id)
    ensures var rot := Begin(r.w, id, mint);
            var r1 := Store(r, rot).0;
            && Tracked(r1) && NeverFalls(r1.stored) && r1.net == r.net && r1.disk == Rest(r.disk)
            && (FaultOf(r.disk).Fine? ==> Ready(r1, rot) && OldRevoked(r1.w, rot) == OldRevoked(r.w, rot))
  {
    var rot := Begin(r.w, id, mint);
    BeginFits(r.w, id, mint);
    StoreOk(r, rot);
    if InProgress(r.w) { StoreForward(r, rot, rot); }
  }

  lemma CallShape(r: Run, id: string, mint: Credential, rot: Rotation)
    requires rot == Begin(r.w, id, mint) && Usable(rot) && rot.oldKey.Some?
    ensures var (r1, reply) := Store(r, rot);
            Rotate(r, id, mint).0 == if reply == Ok then RegisterStage(r1, rot, rot.oldKey.value).0 else r1
  {
  }

  /** The inputs that make a call set the stored stage back. */
  ghost predicate CallFalls(w: World, s: Session) {
    var rot := Begin(w, s.id, s.mint);
    StageFalls(rot.stage.Rank(), s.net, s.disk, OldRevoked(w, rot))
  }

  /** One call sets the stored stage of a rotation back exactly when the first disk fault is an error of the
      proof write, or an error after taking effect of a write that moves the stage on, the network lets the
      call through to that write, and the failure handler's write, which comes next, takes effect. */
  lemma StageFallsExactly(r: Run, s: Session)
    requires Inv(r.w) && Mintable(r.w, s.mint) && Tracked(r) && NeverFalls(r.stored) && Unused(r.stored, s.id)
    requires r.net == s.net && r.disk == s.disk
    ensures Tracked(Rotate(r, s.id, s.mint).0)
    ensures NeverFalls(Rotate(r, s.id, s.mint).0.stored) <==> !CallFalls(r.w, s)
  {
    var rot := Begin(r.w, s.id, s.mint);
    var rank, revoked := rot.stage.Rank(), OldRevoked(r.w, rot);
    BeginFits(r.w, s.id, s.mint);
    FirstStore(r, s.id, s.mint);
    CallShape(r, s.id, s.mint, rot);
    var (r1, reply) := Store(r, rot);
    if reply == Ok { RegisterForward(r1, rot, revoked); }
    FallsFromIs(Writes(rank), r.disk, rank, r.net, revoked);
    SteadyFallsFrom(rank, r.disk, r.net, revoked);
  }

  // ---------------------------------------------------------------- many calls

  /** A call keeps what is stored and makes at most `extra` revoke calls. */
  ghost predicate Grew(r: Run, r': Run, extra: nat) {
    r.stored <= r'.stored && r'.revokes <= r.revokes + extra
  }

  lemma CompleteGrows(r: Run, rot: Rotation, previous: Credential)
    ensures Grew(r, CompleteStage(r, rot, previous).0, 0)
  {
  }

  lemma RevokeTwiceGrows(r: Run, oldId: KeyId, previous: Credential)
    ensures var r' := RevokeTwice(r, oldId, previous).0; r'.stored == r.stored && r'.revokes <= r.revokes + 2
  {
  }

  lemma RevokedNowGrows(r1: Run, rot: Rotation, previous: Credential)
    requires Usable(rot)
    ensures Grew(r1, RevokedNow(r1, rot, previous).0, 0)
  {
    var rot2 := Advance(rot, OldKeyRevoked);
    CompleteGrows(Store(r1, rot2).0, rot2, previous);
  }

  lemma RevokeGrows(r: Run, rot: Rotation, previous: Credential)
    requires Usable(rot)
    ensures Grew(r, RevokeStage(r, rot, previous).0, 2)
  {
    if rot.stage.Rank() >= 4 {
      CompleteGrows(r, rot, previous);
    } else {
      RevokeTwiceGrows(r, rot.oldId, previous);
      RevokeShape(r, rot, previous);
      RevokedNowGrows(RevokeTwice(r, rot.oldId, previous).0, rot, previous);
    }
  }

  lemma PromoteGrows(r: Run, rot: Rotation, previous: Credential)
    requires Usable(rot)
    ensures Grew(r, PromoteStage(r, rot, previous).0, 2)
  {
    var rot2 := Advance(rot, LocalPromoted);
    RevokeGrows(r, rot, previous);
    RevokeGrows(Store(StoreLocal(r, rot.newKey.value).0, rot2).0, rot2, previous);
  }

  lemma VerifyGrows(r: Run, rot: Rotation, previous: Credential)
    requires Usable(rot)
    ensures Grew(r, VerifyStage(r, rot, previous).0, 2)
  {
    var rot2 := Advance(rot, NewKeyVerified);
    PromoteGrows(r, rot, previous);
    PromoteGrows(Store(Health(r, rot.newKey.value).0, rot2).0, rot2, previous);
  }

  lemma RegisterGrows(r: Run, rot: Rotation, previous: Credential)
    requires Usable(rot)
    ensures Grew(r, RegisterStage(r, rot, previous).0, 2)
  {
    if rot.stage.Rank() >= 1 {
      VerifyGrows(r, rot, previous);
    } else {
      var rot1 := Advance(rot, Preparing);
      var rot3 := Advance(rot1, NewKeyRegistered);
      var r1 := Store(r, rot1).0;
      var r2 := CallAgent(r1, Register(r1.w.agent, previous, rot.newKey.value)).0;
      VerifyGrows(Store(r2, rot3).0, rot3, previous);
    }
  }

  lemma RotateGrows(r: Run, id: string, mint: Credential)
    ensures Grew(r, Rotate(r, id, mint).0, 2)
  {
    var rot := Begin(r.w, id, mint);
    if Usable(rot) {
      RegisterGrows(Store(r, rot).0, rot, if rot.oldKey.Some? then rot.oldKey.value else r.w.local);
    }
  }

  /** Over any number of calls a call makes at most two revoke calls, and what is stored stays stored. */
  lemma {:induction false} RotationsGrow(r: Run, sessions: seq<Session>)
    ensures Grew(r, Rotations(r, sessions), 2 * |sessions|)
    decreases |sessions|
  {
    if sessions != [] {
      var s := sessions[0];
      var r0 := r.(net := s.net, disk := s.disk);
      RotateGrows(r0, s.id, s.mint);
      RotationsGrow(Rotate(r0, s.id, s.mint).0, sessions[1..]);
    }
  }

  /** No call of the run falls, each judged by its own scripts at the world it starts in. */
  ghost predicate Smooth(r: Run, sessions: seq<Session>)
    decreases |sessions|
  {
    sessions == [] ||
    var s := sessions[0];
    !CallFalls(r.w, s) && Smooth(Rotate(r.(net := s.net, disk := s.disk), s.id, s.mint).0, sessions[1..])
  }

  lemma PrefixNeverFalls(before: seq<Rotation>, after: seq<Rotation>)
    requires before <= after && NeverFalls(after)
    ensures NeverFalls(before)
  {
    assert forall i :: 0 <= i < |before| ==> before[i] == after[i];
  }

  /** Over any number of calls the stage of every rotation never goes back exactly when no call falls. */
  lemma {:induction false} StagesNeverFallExactly(r: Run, sessions: seq<Session>)
    requires Inv(r.w) && Tracked(r) && NeverFalls(r.stored) && FreshNames(r, sessions)
    ensures NeverFalls(Rotations(r, sessions).stored) <==> Smooth(r, sessions)
    decreases |sessions|
  {
    if sessions != [] {
      var s := sessions[0];
      var r0 := r.(net := s.net, disk := s.disk);
      var r1 := Rotate(r0, s.id, s.mint).0;
      StageFallsExactly(r0, s);
      if NeverFalls(r1.stored) {
        RotateKeepsInv(r0, s.id, s.mint);
        StagesNeverFallExactly(r1, sessions[1..]);
      } else {
        RotationsGrow(r1, sessions[1..]);
        if NeverFalls(Rotations(r, sessions).stored) {
          PrefixNeverFalls(r1.stored, Rotations(r, sessions).stored);
        }
      }
    }
  }

  // ---------------------------------------------------------------- the two ways back

  /** A first rotation, over a network without faults. */
  const START := World(map["old" := AgentKey("s", Active)], Credential("old", "s"), None)

  function First(disk: seq<Fault>): Session { Session("rot-1", Credential("new", "t"), [], disk) }

  function Fresh(disk: seq<Fault>): Run { Run(START, [], disk, 0, []) }

  lemma FirstFalls(n: nat, disk: seq<Fault>)
    requires FallsAt(Writes(0), n, disk, 0, [], false)
    ensures Inv(START) && !NeverFalls(Rotate(Fresh(disk), "rot-1", Credential("new", "t")).0.stored)
  {
    assert ActiveKeys(START.agent) == {"old"};
    StageFallsExactly(Fresh(disk), First(disk));
  }

  /** On a truthful disk: the proof, the last of nine writes, fails, and the handler goes back to the
      stage before completion. */
  lemma FailedProofExample()
    ensures var disk := seq(8, _ => Fine) + [Error(false, false)];
            Honest(disk) && !NeverFalls(Rotate(Fresh(disk), "rot-1", Credential("new", "t")).0.stored)
  {
    var disk := seq(8, _ => Fine) + [Error(false, false)];
    ProofComesLast(0);
    QuietNetworkReaches(0, false);
    assert FallsAt(Writes(0), 8, disk, 0, [], false);
    FirstFalls(8, disk);
  }

  /** A write that takes effect and is then reported as failed also sets the stage back. */
  lemma UntruthfulDiskExample()
    ensures !NeverFalls(Rotate(Fresh([Fine, Fine, Error(true, false)]), "rot-1", Credential("new", "t")).0.stored)
  {
    var disk := [Fine, Fine, Error(true, false)];
    assert Writes(0)[2] == Advancing(1) && |Writes(0)| > 2;
    assert Reaches(0, 1, [], false);
    assert FallsAt(Writes(0), 2, disk, 0, [], false);
    FirstFalls(2, disk);
  }
}
