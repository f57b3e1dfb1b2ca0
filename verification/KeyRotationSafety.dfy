/** Rotation never locks the launcher out, keeps every live secret, and always gets through. */
module KeyRotationSafety {
  import opened Options
  import opened KeyRotation
  import Sets

  // ---------------------------------------------------------------- invariant

  predicate Holds(agent: map<KeyId, AgentKey>, key: Credential, status: KeyStatus) {
    key.id in agent && agent[key.id] == AgentKey(key.secret, status)
  }

  predicate InProgress(w: World) {
    w.rotation.Some? && w.rotation.value.status != Status.Done
  }

  /** A rotation state that may be written while the agent and the local file are as they are. */
  ghost predicate Fits(w: World, rot: Rotation) {
    && Usable(rot) && rot.oldKey.Some? && rot.oldId == rot.oldKey.value.id && rot.newId != rot.oldId
    && rot.stage != Completed && rot.status != Status.Done
    && var old', new' := rot.oldKey.value, rot.newKey.value;
       && (new'.id in w.agent ==> Holds(w.agent, new', Active))
       && (Holds(w.agent, old', Active) || Holds(w.agent, old', Revoked))
       && (rot.stage.Rank() >= 1 ==> Holds(w.agent, new', Active))
       && (rot.stage.Rank() <= 1 ==> w.local == old')
       && (w.local == old' || w.local == new')
       && (rot.stage.Rank() >= 3 ==> w.local == new')
       && (rot.stage.Rank() <= 2 ==> Holds(w.agent, old', Active))
       && (rot.stage.Rank() >= 4 ==> Holds(w.agent, old', Revoked))
       && ActiveKeys(w.agent) <= {old'.id, new'.id}
  }

  /** What the file of a completed rotation holds: the two key ids and no secret. */
  predicate Spent(w: World, rot: Rotation) {
    && rot.status == Status.Done && rot.stage == Completed && rot.oldKey == None && rot.newKey == None
    && rot.newId == w.local.id && rot.oldId != rot.newId
    && rot.oldId in w.agent && w.agent[rot.oldId].status == Revoked
  }

  ghost predicate Inv(w: World) {
    && Holds(w.agent, w.local, Active)
    && (InProgress(w) ==> Fits(w, w.rotation.value))
    && (!InProgress(w) ==> ActiveKeys(w.agent) == {w.local.id})
    && (!InProgress(w) && w.rotation.Some? ==> Spent(w, w.rotation.value))
  }

  ghost predicate Mintable(w: World, mint: Credential) {
    mint.id !in w.agent
  }

  lemma BeginFits(w: World, id: string, mint: Credential)
    requires Inv(w) && Mintable(w, mint)
    ensures Fits(w, Begin(w, id, mint))
  {
  }

  lemma StoreOk(r: Run, rot: Rotation)
    requires Inv(r.w) && Fits(r.w, rot)
    ensures Inv(Store(r, rot).0.w) && Fits(Store(r, rot).0.w, rot)
  {
  }

  // ---------------------------------------------------------------- every stage keeps it

  lemma CatchOk(r: Run, rot: Rotation, outcome: Outcome)
    requires Inv(r.w) && Fits(r.w, rot)
    ensures Inv(Catch(r, rot, outcome).0.w)
  {
    StoreOk(r, rot.(status := FailedRecoverable));
  }

  lemma RegisterOk(r: Run, rot: Rotation)
    requires Inv(r.w) && Fits(r.w, rot) && rot.stage == Preparing && r.w.rotation == Some(rot)
    ensures var (r', reply) := CallAgent(r, Register(r.w.agent, rot.oldKey.value, rot.newKey.value));
            Inv(r'.w) && Fits(r'.w, rot) && (reply == Ok ==> Fits(r'.w, Advance(rot, NewKeyRegistered)))
  {
    var (agent', answer) := Register(r.w.agent, rot.oldKey.value, rot.newKey.value);
    assert ActiveKeys(agent') <= {rot.oldId, rot.newId};
  }

  /** Before the registration only the old key is active, so the agent has room for the new one. */
  lemma AgentAccepts(w: World, rot: Rotation)
    requires Fits(w, rot) && rot.stage == Preparing
    ensures Register(w.agent, rot.oldKey.value, rot.newKey.value).1 == Ok
  {
    if rot.newId !in w.agent {
      assert ActiveKeys(w.agent) <= {rot.oldId};
      Sets.SubsetSize(ActiveKeys(w.agent), {rot.oldId});
    }
  }

  lemma RegisterStageOk(r: Run, rot: Rotation)
    requires Inv(r.w) && Fits(r.w, rot) && r.w.rotation == Some(rot)
    ensures Inv(RegisterStage(r, rot, rot.oldKey.value).0.w)
  {
    var previous := rot.oldKey.value;
    if rot.stage.Rank() >= 1 {
      VerifyStageOk(r, rot);
    } else {
      var rot1 := Advance(rot, Preparing);
      StoreOk(r, rot1);
      var (r1, reply1) := Store(r, rot1);
      if reply1 == Ok {
        RegisterOk(r1, rot1);
        var (r2, reply2) := CallAgent(r1, Register(r1.w.agent, previous, rot.newKey.value));
        if reply2 == Ok {
          var rot3 := Advance(rot1, NewKeyRegistered);
          StoreOk(r2, rot3);
          var (r3, reply3) := Store(r2, rot3);
          if reply3 == Ok {
            VerifyStageOk(r3, rot3);
          } else {
            CatchOk(r3, rot1, Failed);
          }
        } else {
          CatchOk(r2, rot1, Failed);
        }
      } else {
        CatchOk(r1, rot, Failed);
      }
    }
  }

  lemma VerifyStageOk(r: Run, rot: Rotation)
    requires Inv(r.w) && Fits(r.w, rot) && rot.stage.Rank() >= 1 && r.w.rotation == Some(rot)
    ensures Inv(VerifyStage(r, rot, rot.oldKey.value).0.w)
  {
    if rot.stage.Rank() >= 2 {
      PromoteStageOk(r, rot);
    } else {
      var (r1, reply1) := Health(r, rot.newKey.value);
      if reply1 == Ok {
        var rot2 := Advance(rot, NewKeyVerified);
        StoreOk(r1, rot2);
        var (r2, reply2) := Store(r1, rot2);
        if reply2 == Ok {
          PromoteStageOk(r2, rot2);
        } else {
          CatchOk(r2, rot, Failed);
        }
      } else {
        CatchOk(r1, rot, Failed);
      }
    }
  }

  lemma PromoteStageOk(r: Run, rot: Rotation)
    requires Inv(r.w) && Fits(r.w, rot) && rot.stage.Rank() >= 2 && r.w.rotation == Some(rot)
    ensures Inv(PromoteStage(r, rot, rot.oldKey.value).0.w)
  {
    if rot.stage.Rank() >= 3 {
      RevokeStageOk(r, rot);
    } else {
      var (r1, reply1) := StoreLocal(r, rot.newKey.value);
      assert Inv(r1.w) && Fits(r1.w, rot);
      if reply1 == Ok {
        var rot2 := Advance(rot, LocalPromoted);
        StoreOk(r1, rot2);
        var (r2, reply2) := Store(r1, rot2);
        if reply2 == Ok {
          RevokeStageOk(r2, rot2);
        } else {
          CatchOk(r2, rot, Failed);
        }
      } else {
        CatchOk(r1, rot, Failed);
      }
    }
  }

  lemma RevokeAnswerOk(w: World, rot: Rotation)
    requires Inv(w) && Fits(w, rot) && rot.stage == LocalPromoted && w.rotation == Some(rot)
    ensures var (agent', reply) := Revoke(w.agent, w.local, rot.oldId);
            var w' := w.(agent := agent');
            Inv(w') && Fits(w', rot) && reply == Ok && Fits(w', Advance(rot, OldKeyRevoked))
  {
    var agent' := Revoke(w.agent, w.local, rot.oldId).0;
    assert ActiveKeys(agent') <= ActiveKeys(w.agent);
  }

  lemma OldRevokedFits(w: World, rot: Rotation)
    requires Fits(w, rot) && rot.stage == LocalPromoted && Authenticate(w.agent, rot.oldKey.value) == KeyRevoked
    ensures Fits(w, Advance(rot, OldKeyRevoked))
  {
  }

  lemma TryRevokeOk(r: Run, rot: Rotation, last: bool)
    requires Inv(r.w) && Fits(r.w, rot) && rot.stage == LocalPromoted && r.w.rotation == Some(rot)
    ensures var (r', attempt) := TryRevoke(r, rot.oldId, rot.oldKey.value, last);
            && Inv(r'.w) && Fits(r'.w, rot) && r'.w.rotation == r.w.rotation && r'.disk == r.disk
            && r'.stored == r.stored && r'.revokes == r.revokes + 1
            && (attempt == Attempt.Done ==> Fits(r'.w, Advance(rot, OldKeyRevoked)))
            && (last ==> attempt != Retry)
            && (r.net == [] ==> attempt == Attempt.Done && r'.net == [])
  {
    var answer := Revoke(r.w.agent, r.w.local, rot.oldId);
    RevokeAnswerOk(r.w, rot);
    var (r1, reply1) := CallAgent(r.(revokes := r.revokes + 1), answer);
    assert r1.w == r.w || r1.w == r.w.(agent := answer.0);
    if reply1 != Dead && reply1 != Ok {
      var (r2, reply2) := Health(r1, rot.oldKey.value);
      assert r2.w == r1.w;
      if reply2 == KeyRevoked {
        OldRevokedFits(r1.w, rot);
      }
    }
  }

  lemma RevokeTwiceOk(r: Run, rot: Rotation)
    requires Inv(r.w) && Fits(r.w, rot) && rot.stage == LocalPromoted && r.w.rotation == Some(rot)
    ensures var (r', attempt) := RevokeTwice(r, rot.oldId, rot.oldKey.value);
            && Inv(r'.w) && Fits(r'.w, rot) && r'.w.rotation == r.w.rotation && r'.disk == r.disk
            && r'.stored == r.stored && r.revokes < r'.revokes <= r.revokes + 2
            && (attempt == Attempt.Done ==> Fits(r'.w, Advance(rot, OldKeyRevoked))) && attempt != Retry
  {
    TryRevokeOk(r, rot, false);
    var (r1, attempt) := TryRevoke(r, rot.oldId, rot.oldKey.value, false);
    if attempt == Retry {
      TryRevokeOk(r1, rot, true);
    }
  }

  lemma RevokeStageOk(r: Run, rot: Rotation)
    requires Inv(r.w) && Fits(r.w, rot) && rot.stage.Rank() >= 3 && r.w.rotation == Some(rot)
    ensures Inv(RevokeStage(r, rot, rot.oldKey.value).0.w)
  {
    if rot.stage.Rank() >= 4 {
      CompleteStageOk(r, rot);
    } else {
      RevokeTwiceOk(r, rot);
      var (r1, attempt) := RevokeTwice(r, rot.oldId, rot.oldKey.value);
      if attempt == Attempt.Done {
        var rot2 := Advance(rot, OldKeyRevoked);
        StoreOk(r1, rot2);
        var (r2, reply2) := Store(r1, rot2);
        if reply2 == Ok {
          CompleteStageOk(r2, rot2);
        } else {
          CatchOk(r2, rot, Failed);
        }
      } else {
        CatchOk(r1, rot, Failed);
      }
    }
  }

  lemma CompletedOk(w: World, rot: Rotation)
    requires Inv(w) && Fits(w, rot) && rot.stage == OldKeyRevoked
    ensures Inv(w.(rotation := Some(CompletedRotation(rot, w.local.id))))
    ensures Fits(w.(rotation := Some(CompletedRotation(rot, w.local.id))), rot)
  {
    assert ActiveKeys(w.agent) == {w.local.id};
  }

  lemma CompleteStageOk(r: Run, rot: Rotation)
    requires Inv(r.w) && Fits(r.w, rot) && rot.stage == OldKeyRevoked && r.w.rotation == Some(rot)
    ensures Inv(CompleteStage(r, rot, rot.oldKey.value).0.w)
  {
    var (r1, reply1) := Health(r, rot.oldKey.value);
    var (r2, reply2) := Health(r1, r1.w.local);
    CatchOk(r2, rot, Failed);
    CompletedOk(r2.w, rot);
    var (r3, reply3) := Store(r2, CompletedRotation(rot, r2.w.local.id));
    CatchOk(r3, rot, Failed);
    var (r4, reply4) := StoreProof(r3);
    CatchOk(r4, rot, FailedAfterCompletion);
  }

  // ---------------------------------------------------------------- safety of a run and of many

  /** Whatever fails or crashes, and wherever: the key in the local file is active at the agent, and no
      key active at the agent is missing from the credential file and the rotation file. */
  lemma RotateKeepsInv(r: Run, id: string, mint: Credential)
    requires Inv(r.w) && Mintable(r.w, mint)
    ensures Inv(Rotate(r, id, mint).0.w)
  {
    var rot := Begin(r.w, id, mint);
    BeginFits(r.w, id, mint);
    StoreOk(r, rot);
    var (r1, reply) := Store(r, rot);
    if reply == Ok {
      RegisterStageOk(r1, rot);
    }
  }

  /** The local file or the rotation file holds the key with the secret the agent expects. */
  predicate Known(w: World, id: KeyId) {
    && id in w.agent
    && var key := Credential(id, w.agent[id].secret);
       || w.local == key
       || (w.rotation.Some? && (w.rotation.value.oldKey == Some(key) || w.rotation.value.newKey == Some(key)))
  }

  datatype Session = Session(id: string, mint: Credential, net: seq<Fault>, disk: seq<Fault>)

  /** Any number of calls, each with its own faults. */
  function Rotations(r: Run, sessions: seq<Session>): Run
    decreases |sessions|
  {
    if sessions == [] then r
    else
      var s := sessions[0];
      Rotations(Rotate(r.(net := s.net, disk := s.disk), s.id, s.mint).0, sessions[1..])
  }

  /** Every call mints a key the agent has not seen and a rotation id not used before. */
  ghost predicate FreshNames(r: Run, sessions: seq<Session>)
    decreases |sessions|
  {
    sessions == [] ||
    var s := sessions[0];
    && Mintable(r.w, s.mint)
    && (forall i :: 0 <= i < |r.stored| ==> r.stored[i].id != s.id)
    && FreshNames(Rotate(r.(net := s.net, disk := s.disk), s.id, s.mint).0, sessions[1..])
  }

  lemma {:induction false} RotationsKeepInv(r: Run, sessions: seq<Session>)
    requires Inv(r.w) && FreshNames(r, sessions)
    ensures Inv(Rotations(r, sessions).w)
    decreases |sessions|
  {
    if sessions != [] {
      var s := sessions[0];
      RotateKeepsInv(r.(net := s.net, disk := s.disk), s.id, s.mint);
      RotationsKeepInv(Rotate(r.(net := s.net, disk := s.disk), s.id, s.mint).0, sessions[1..]);
    }
  }

  /** No rotation in progress, and the agent knows one active key, the local one. */
  ghost predicate AtRest(w: World) {
    w.rotation.None? && Holds(w.agent, w.local, Active) && ActiveKeys(w.agent) == {w.local.id}
  }

  /** From there, after any number of calls that may each fail or die anywhere, the local credential is
      accepted by the agent and every key the agent accepts is stored with its secret. */
  lemma NeverLockedOut(r: Run, sessions: seq<Session>, w: World)
    requires AtRest(r.w) && FreshNames(r, sessions) && w == Rotations(r, sessions).w
    ensures Authenticate(w.agent, w.local) == Ok
    ensures forall id :: id in ActiveKeys(w.agent) ==> Known(w, id)
  {
    RotationsKeepInv(r, sessions);
  }

  /** And a rotation file that says it is done has let go of both credentials: it names the local key and
      the old one, which is revoked. */
  lemma DoneFileHoldsNoSecret(r: Run, sessions: seq<Session>, w: World)
    requires AtRest(r.w) && FreshNames(r, sessions) && w == Rotations(r, sessions).w
    requires w.rotation.Some? && w.rotation.value.status == Status.Done
    ensures var rot := w.rotation.value;
            && rot.stage == Completed && rot.oldKey == None && rot.newKey == None
            && rot.newId == w.local.id && rot.oldId in w.agent && w.agent[rot.oldId].status == Revoked
  {
    RotationsKeepInv(r, sessions);
  }

  // ---------------------------------------------------------------- progress

  ghost predicate FaultFree(r: Run) { r.net == [] && r.disk == [] }

  /** The rotation has completed: the new key is the local one, active, and alone. */
  ghost predicate Rotated(w: World, rot: Rotation) {
    && rot.newKey.Some? && w.local == rot.newKey.value
    && ActiveKeys(w.agent) == {rot.newId} && Holds(w.agent, w.local, Active)
    && rot.oldId in w.agent && w.agent[rot.oldId].status == Revoked
    && w.rotation.Some? && Spent(w, w.rotation.value)
    && w.rotation.value.id == rot.id && w.rotation.value.oldId == rot.oldId
  }

  lemma CompleteThrough(r: Run, rot: Rotation)
    requires Inv(r.w) && Fits(r.w, rot) && rot.stage == OldKeyRevoked && FaultFree(r)
    ensures var (r', outcome) := CompleteStage(r, rot, rot.oldKey.value);
            outcome == Finished && Rotated(r'.w, rot) && r'.revokes == r.revokes
  {
    CompletedOk(r.w, rot);
  }

  lemma RevokeThrough(r: Run, rot: Rotation)
    requires Inv(r.w) && Fits(r.w, rot) && rot.stage.Rank() >= 3 && r.w.rotation == Some(rot) && FaultFree(r)
    ensures var (r', outcome) := RevokeStage(r, rot, rot.oldKey.value);
            outcome == Finished && Rotated(r'.w, rot) && r'.revokes <= r.revokes + 1
  {
    if rot.stage.Rank() >= 4 {
      CompleteThrough(r, rot);
    } else {
      TryRevokeOk(r, rot, false);
      var (r1, attempt) := RevokeTwice(r, rot.oldId, rot.oldKey.value);
      assert attempt == Attempt.Done;
      var rot2 := Advance(rot, OldKeyRevoked);
      StoreOk(r1, rot2);
      CompleteThrough(Store(r1, rot2).0, rot2);
    }
  }

  lemma PromoteThrough(r: Run, rot: Rotation)
    requires Inv(r.w) && Fits(r.w, rot) && rot.stage.Rank() >= 2 && r.w.rotation == Some(rot) && FaultFree(r)
    ensures var (r', outcome) := PromoteStage(r, rot, rot.oldKey.value);
            outcome == Finished && Rotated(r'.w, rot) && r'.revokes <= r.revokes + 1
  {
    if rot.stage.Rank() >= 3 {
      RevokeThrough(r, rot);
    } else {
      var r1 := StoreLocal(r, rot.newKey.value).0;
      var rot2 := Advance(rot, LocalPromoted);
      StoreOk(r1, rot2);
      RevokeThrough(Store(r1, rot2).0, rot2);
    }
  }

  lemma VerifyThrough(r: Run, rot: Rotation)
    requires Inv(r.w) && Fits(r.w, rot) && rot.stage.Rank() >= 1 && r.w.rotation == Some(rot) && FaultFree(r)
    ensures var (r', outcome) := VerifyStage(r, rot, rot.oldKey.value);
            outcome == Finished && Rotated(r'.w, rot) && r'.revokes <= r.revokes + 1
  {
    if rot.stage.Rank() >= 2 {
      PromoteThrough(r, rot);
    } else {
      var rot2 := Advance(rot, NewKeyVerified);
      StoreOk(r, rot2);
      PromoteThrough(Store(r, rot2).0, rot2);
    }
  }

  lemma RegisterThrough(r: Run, rot: Rotation)
    requires Inv(r.w) && Fits(r.w, rot) && r.w.rotation == Some(rot) && FaultFree(r)
    ensures var (r', outcome) := RegisterStage(r, rot, rot.oldKey.value);
            outcome == Finished && Rotated(r'.w, rot) && r'.revokes <= r.revokes + 1
  {
    if rot.stage.Rank() >= 1 {
      VerifyThrough(r, rot);
    } else {
      var rot1 := Advance(rot, Preparing);
      StoreOk(r, rot1);
      var r1 := Store(r, rot1).0;
      AgentAccepts(r1.w, rot1);
      RegisterOk(r1, rot1);
      var r2 := CallAgent(r1, Register(r1.w.agent, rot.oldKey.value, rot.newKey.value)).0;
      var rot3 := Advance(rot1, NewKeyRegistered);
      StoreOk(r2, rot3);
      VerifyThrough(Store(r2, rot3).0, rot3);
    }
  }

  /** From any point earlier faults can leave behind, one call without faults completes the rotation in
      progress, or a new one, with at most one revoke call. */
  lemma FaultFreeCallCompletes(r: Run, id: string, mint: Credential)
    requires Inv(r.w) && Mintable(r.w, mint) && FaultFree(r)
    ensures var (r', outcome) := Rotate(r, id, mint);
            outcome == Finished && Rotated(r'.w, Begin(r.w, id, mint)) && r'.revokes <= r.revokes + 1
    ensures var w' := Rotate(r, id, mint).0.w;
            if InProgress(r.w) then
              w'.local == r.w.rotation.value.newKey.value && w'.rotation.value.id == r.w.rotation.value.id
            else w'.local == mint && w'.rotation.value.id == id && w'.rotation.value.oldId == r.w.local.id
  {
    var rot := Begin(r.w, id, mint);
    BeginFits(r.w, id, mint);
    StoreOk(r, rot);
    RegisterThrough(Store(r, rot).0, rot);
  }

  lemma {:induction false} RecoveryCompletes(r: Run, sessions: seq<Session>, id: string, mint: Credential)
    requires Inv(r.w) && FreshNames(r, sessions) && Mintable(Rotations(r, sessions).w, mint)
    ensures var w := Rotations(r, sessions).w;
            var (r', outcome) := Rotate(Rotations(r, sessions).(net := [], disk := []), id, mint);
            outcome == Finished && Rotated(r'.w, Begin(w, id, mint))
  {
    RotationsKeepInv(r, sessions);
    FaultFreeCallCompletes(Rotations(r, sessions).(net := [], disk := []), id, mint);
  }
}
