/** Which credential signs which call of a rotation, and what the agent makes of any call: for every world, also
    for those no rotation leads to. */
module KeyRotationCalls {
  import opened Options
  import opened KeyRotation
  import opened KeyRotationSafety
  import Sets

  // ---------------------------------------------------------------- the agent

  /** A signer is accepted exactly with a known key that is not revoked and the secret the agent has for it. */
  lemma AcceptedExactly(agent: map<KeyId, AgentKey>, signer: Credential)
    ensures Authenticate(agent, signer) == Ok <==> Holds(agent, signer, Active)
    ensures Authenticate(agent, signer) == KeyRevoked <==>
              signer.id in agent && agent[signer.id].status == Revoked
  {
  }

  /** No call takes a key away, changes a secret or brings a revoked key back. */
  predicate Follows(agent: map<KeyId, AgentKey>, agent': map<KeyId, AgentKey>) {
    forall k :: k in agent ==>
      k in agent' && agent'[k].secret == agent[k].secret && (agent[k].status == Revoked ==> agent'[k].status == Revoked)
  }

  /** A registration adds one active key or nothing, and only for an accepted signer with another key; it never
      makes a third active key. */
  lemma RegistrationIs(agent: map<KeyId, AgentKey>, signer: Credential, key: Credential)
    ensures var (agent', reply) := Register(agent, signer, key);
            && Follows(agent, agent') && (reply == Ok ==> Holds(agent', key, Active))
            && (agent' != agent ==>
                  && reply == Ok && Holds(agent, signer, Active) && key.id !in agent
                  && agent' == agent[key.id := AgentKey(key.secret, Active)])
            && (|ActiveKeys(agent)| <= 2 ==> |ActiveKeys(agent')| <= 2)
            && (reply == Ok <==>
                  && Holds(agent, signer, Active) && key.id != signer.id
                  && (Holds(agent, key, Active) || (key.id !in agent && |ActiveKeys(agent)| <= 1)))
  {
    var (agent', reply) := Register(agent, signer, key);
    if agent' != agent {
      assert ActiveKeys(agent') == ActiveKeys(agent) + {key.id};
    }
  }

  /** A revocation revokes the named key and touches no other, exactly for an accepted signer and a known key. */
  lemma RevocationIs(agent: map<KeyId, AgentKey>, signer: Credential, id: KeyId)
    ensures var (agent', reply) := Revoke(agent, signer, id);
            && Follows(agent, agent') && (reply == Ok <==> Holds(agent, signer, Active) && id in agent)
            && (reply == Ok ==> id in agent' && agent'[id].status == Revoked)
            && (reply != Ok ==> agent' == agent)
            && agent'.Keys == agent.Keys && forall k :: k in agent && k != id ==> agent'[k] == agent[k]
  {
  }

  // ---------------------------------------------------------------- who signs

  /** The first call is signed by the previous key: without that key's acceptance nothing is registered, and
      nothing is promoted either. */
  lemma RegistersWithThePreviousKey(r: Run, rot: Rotation, previous: Credential)
    requires Usable(rot) && rot.stage == Preparing && !Holds(r.w.agent, previous, Active)
    ensures var (r', outcome) := RegisterStage(r, rot, previous);
            r'.w.agent == r.w.agent && r'.w.local == r.w.local && outcome in {Failed, Died}
  {
  }

  /** A registered key is promoted only after the agent has answered a call signed by it. */
  lemma PromotesOnlyAnAcceptedKey(r: Run, rot: Rotation, previous: Credential)
    requires Usable(rot) && rot.stage == NewKeyRegistered
    requires !Holds(r.w.agent, rot.newKey.value, Active) || !FaultOf(r.net).Fine?
    ensures var (r', outcome) := VerifyStage(r, rot, previous);
            r'.w.agent == r.w.agent && r'.w.local == r.w.local && r'.revokes == r.revokes && outcome in {Failed, Died}
  {
  }

  /** The old key is revoked by the credential in the local file, not by itself. */
  lemma RevokesWithTheLocalKey(r: Run, oldId: KeyId, previous: Credential, last: bool)
    ensures var (r', attempt) := TryRevoke(r, oldId, previous, last);
            && r'.w.local == r.w.local && r'.w.rotation == r.w.rotation && r'.stored == r.stored
            && (r'.w.agent == r.w.agent
                || (Holds(r.w.agent, r.w.local, Active) && oldId in r.w.agent && Effective(FaultOf(r.net))
                    && r'.w.agent == r.w.agent[oldId := AgentKey(r.w.agent[oldId].secret, Revoked)]))
  {
  }

  /** After an attempt the old key counts as revoked in two cases: the agent said so, or it turned a call signed by
      the old key away as revoked.  Another attempt follows only a retryable loss in the first one. */
  lemma AttemptDecides(r: Run, oldId: KeyId, previous: Credential, last: bool)
    ensures var (r', attempt) := TryRevoke(r, oldId, previous, last);
            var f, g := FaultOf(r.net), FaultOf(Rest(r.net));
            var accepted := Holds(r.w.agent, r.w.local, Active) && oldId in r.w.agent;
            var turned := previous.id in r'.w.agent && r'.w.agent[previous.id].status == Revoked;
            && (attempt == Attempt.Done <==>
                  (f.Fine? && accepted) || (!(f.Fine? && accepted) && !f.Crash? && g.Fine? && turned))
            && (attempt == Gone <==> f.Crash? || (!(f.Fine? && accepted) && g.Crash?))
            && (attempt == Retry <==>
                  f.Error? && f.retryable && !last && !g.Crash? && !(g.Fine? && turned))
            && r'.revokes == r.revokes + 1
  {
  }

  /** A rotation finishes only when the agent has answered a call signed by the local key. */
  lemma FinishesOnlyWithAnAcceptedLocalKey(r: Run, rot: Rotation, previous: Credential)
    requires !Holds(r.w.agent, r.w.local, Active) || !FaultOf(Rest(r.net)).Fine?
    ensures var (r', outcome) := CompleteStage(r, rot, previous);
            && outcome in {Failed, Died} && r'.w.agent == r.w.agent && r'.w.local == r.w.local
            && (r'.w.rotation == r.w.rotation || r'.w.rotation == Some(rot.(status := FailedRecoverable)))
  {
  }

  /** The old key's answer at the end is only recorded: any answer but a death lets the rotation finish. */
  lemma OldAnswerIsOnlyRecorded(r: Run, rot: Rotation, previous: Credential)
    requires Holds(r.w.agent, r.w.local, Active) && r.disk == [] && FaultOf(Rest(r.net)).Fine?
    ensures CompleteStage(r, rot, previous).1 == Finished <==> !FaultOf(r.net).Crash?
  {
  }

  // ---------------------------------------------------------------- what a failed call leaves

  /** A call that fails while the disk works leaves its own rotation in the file, as a recoverable failure with both
      credentials, unless the file cannot be used at all. */
  lemma FailureIsKept(r: Run, id: string, mint: Credential)
    requires r.disk == [] && Rotate(r, id, mint).1 == Failed
    ensures var rot, w' := Begin(r.w, id, mint), Rotate(r, id, mint).0.w;
            && w'.rotation.Some? && w'.rotation.value.status == FailedRecoverable
            && w'.rotation.value.id == rot.id && w'.rotation.value.oldId == rot.oldId
            && w'.rotation.value.oldKey == rot.oldKey && w'.rotation.value.newId == rot.newId
            && w'.rotation.value.newKey == rot.newKey
            && rot.stage.Rank() <= w'.rotation.value.stage.Rank()
  {
    var rot := Begin(r.w, id, mint);
    var r1 := Store(r, rot).0;
    RegisterFailure(r1, rot, if rot.oldKey.Some? then rot.oldKey.value else r.w.local);
  }

  predicate Keeps(end: (Run, Outcome), rot: Rotation) {
    end.1 == Failed ==>
      && end.0.w.rotation.Some?
      && var left := end.0.w.rotation.value;
         && left == rot.(status := FailedRecoverable, stage := left.stage)
         && rot.stage.Rank() <= left.stage.Rank()
  }

  lemma RegisterFailure(r: Run, rot: Rotation, previous: Credential)
    requires Usable(rot) && r.disk == []
    ensures Keeps(RegisterStage(r, rot, previous), rot)
  {
    if rot.stage.Rank() >= 1 {
      VerifyFailure(r, rot, previous);
    } else {
      var rot1 := Advance(rot, Preparing);
      var r1 := Store(r, rot1).0;
      var (r2, reply2) := CallAgent(r1, Register(r1.w.agent, previous, rot.newKey.value));
      if reply2 == Ok {
        var rot3 := Advance(rot1, NewKeyRegistered);
        VerifyFailure(Store(r2, rot3).0, rot3, previous);
      }
    }
  }

  lemma VerifyFailure(r: Run, rot: Rotation, previous: Credential)
    requires Usable(rot) && r.disk == []
    ensures Keeps(VerifyStage(r, rot, previous), rot)
  {
    if rot.stage.Rank() >= 2 {
      PromoteFailure(r, rot, previous);
    } else {
      var (r1, reply1) := Health(r, rot.newKey.value);
      if reply1 == Ok {
        var rot2 := Advance(rot, NewKeyVerified);
        PromoteFailure(Store(r1, rot2).0, rot2, previous);
      }
    }
  }

  lemma PromoteFailure(r: Run, rot: Rotation, previous: Credential)
    requires Usable(rot) && r.disk == []
    ensures Keeps(PromoteStage(r, rot, previous), rot)
  {
    if rot.stage.Rank() >= 3 {
      RevokeFailure(r, rot, previous);
    } else {
      var r1 := StoreLocal(r, rot.newKey.value).0;
      var rot2 := Advance(rot, LocalPromoted);
      RevokeFailure(Store(r1, rot2).0, rot2, previous);
    }
  }

  lemma RevokeFailure(r: Run, rot: Rotation, previous: Credential)
    requires Usable(rot) && r.disk == []
    ensures Keeps(RevokeStage(r, rot, previous), rot)
  {
    if rot.stage.Rank() >= 4 {
      CompleteFailure(r, rot, previous);
    } else {
      RevokeKeepsDisk(r, rot.oldId, previous);
      RevokedKeeps(RevokeTwice(r, rot.oldId, previous).0, rot, previous);
    }
  }

  /** What follows an answered revocation. */
  function RevokedThen(r1: Run, rot: Rotation, previous: Credential): (Run, Outcome)
    requires Usable(rot)
  {
    var rot2 := Advance(rot, OldKeyRevoked);
    var (r2, reply2) := Store(r1, rot2);
    if reply2 == Dead then (r2, Died)
    else if reply2 != Ok then Catch(r2, rot, Failed)
    else CompleteStage(r2, rot2, previous)
  }

  lemma RevokedKeeps(r1: Run, rot: Rotation, previous: Credential)
    requires Usable(rot) && r1.disk == [] && rot.stage.Rank() <= 3
    ensures Keeps(RevokedThen(r1, rot, previous), rot)
  {
    var rot2 := Advance(rot, OldKeyRevoked);
    CompleteFailure(Store(r1, rot2).0, rot2, previous);
  }

  lemma RevokeKeepsDisk(r: Run, oldId: KeyId, previous: Credential)
    ensures RevokeTwice(r, oldId, previous).0.disk == r.disk
  {
  }

  lemma CompleteFailure(r: Run, rot: Rotation, previous: Credential)
    requires r.disk == []
    ensures Keeps(CompleteStage(r, rot, previous), rot)
  {
  }

  /** The handler stores the state it was given as a recoverable failure, when its write takes effect, and ends the
      call as a death only if it dies before the rotation was complete. */
  lemma HandlerLeaves(r: Run, rot: Rotation, outcome: Outcome)
    requires outcome == Failed || outcome == FailedAfterCompletion
    ensures var (r', ended) := Catch(r, rot, outcome);
            && r'.w == (if Effective(FaultOf(r.disk)) then r.w.(rotation := Some(rot.(status := FailedRecoverable)))
                        else r.w)
            && ended == (if FaultOf(r.disk).Crash? && outcome == Failed then Died else outcome)
            && r'.net == r.net && r'.disk == Rest(r.disk) && r'.revokes == r.revokes
  {
  }

  // ---------------------------------------------------------------- which states a call stores

  /** Of the states stored since then only the last one may be a failure: what a stage stores is at that stage. */
  predicate FailsLast(before: seq<Rotation>, after: seq<Rotation>) {
    && before <= after
    && forall k :: |before| <= k < |after| - 1 ==> after[k].status != FailedRecoverable
  }

  lemma FailsLater(before: seq<Rotation>, rot: Rotation, after: seq<Rotation>)
    requires rot.status != FailedRecoverable && FailsLast(before + [rot], after)
    ensures FailsLast(before, after)
  {
    assert after[|before|] == (before + [rot])[|before|] == rot;
  }

  lemma CompleteFailsLast(r: Run, rot: Rotation, previous: Credential)
    ensures FailsLast(r.stored, CompleteStage(r, rot, previous).0.stored)
  {
  }

  lemma RevokeFailsLast(r: Run, rot: Rotation, previous: Credential)
    requires Usable(rot)
    ensures FailsLast(r.stored, RevokeStage(r, rot, previous).0.stored)
  {
    if rot.stage.Rank() >= 4 {
      CompleteFailsLast(r, rot, previous);
    } else {
      RevokeStoresNothing(r, rot.oldId, previous);
      var (r1, attempt) := RevokeTwice(r, rot.oldId, previous);
      if attempt == Attempt.Done {
        var rot2 := Advance(rot, OldKeyRevoked);
        var (r2, reply2) := Store(r1, rot2);
        if reply2 == Ok {
          CompleteFailsLast(r2, rot2, previous);
          FailsLater(r.stored, rot2, CompleteStage(r2, rot2, previous).0.stored);
        }
      }
    }
  }

  lemma RevokeStoresNothing(r: Run, oldId: KeyId, previous: Credential)
    ensures RevokeTwice(r, oldId, previous).0.stored == r.stored
  {
  }

  lemma PromoteFailsLast(r: Run, rot: Rotation, previous: Credential)
    requires Usable(rot)
    ensures FailsLast(r.stored, PromoteStage(r, rot, previous).0.stored)
  {
    if rot.stage.Rank() >= 3 {
      RevokeFailsLast(r, rot, previous);
    } else {
      var (r1, reply1) := StoreLocal(r, rot.newKey.value);
      if reply1 == Ok {
        var rot2 := Advance(rot, LocalPromoted);
        var (r2, reply2) := Store(r1, rot2);
        if reply2 == Ok {
          RevokeFailsLast(r2, rot2, previous);
          FailsLater(r.stored, rot2, RevokeStage(r2, rot2, previous).0.stored);
        }
      }
    }
  }

  lemma VerifyFailsLast(r: Run, rot: Rotation, previous: Credential)
    requires Usable(rot)
    ensures FailsLast(r.stored, VerifyStage(r, rot, previous).0.stored)
  {
    if rot.stage.Rank() >= 2 {
      PromoteFailsLast(r, rot, previous);
    } else {
      var (r1, reply1) := Health(r, rot.newKey.value);
      if reply1 == Ok {
        var rot2 := Advance(rot, NewKeyVerified);
        var (r2, reply2) := Store(r1, rot2);
        if reply2 == Ok {
          PromoteFailsLast(r2, rot2, previous);
          FailsLater(r.stored, rot2, PromoteStage(r2, rot2, previous).0.stored);
        }
      }
    }
  }

  /** What follows an accepted registration. */
  function Registered(r2: Run, rot1: Rotation, previous: Credential): Run
    requires Usable(rot1)
  {
    var rot3 := Advance(rot1, NewKeyRegistered);
    var (r3, reply3) := Store(r2, rot3);
    if reply3 == Dead then r3
    else if reply3 != Ok then Catch(r3, rot1, Failed).0
    else VerifyStage(r3, rot3, previous).0
  }

  lemma AfterRegistration(r2: Run, rot1: Rotation, previous: Credential)
    requires Usable(rot1)
    ensures FailsLast(r2.stored, Registered(r2, rot1, previous).stored)
  {
    var rot3 := Advance(rot1, NewKeyRegistered);
    var (r3, reply3) := Store(r2, rot3);
    if reply3 == Ok {
      VerifyFailsLast(r3, rot3, previous);
      FailsLater(r2.stored, rot3, VerifyStage(r3, rot3, previous).0.stored);
    }
  }

  lemma RegisterFailsLast(r: Run, rot: Rotation, previous: Credential)
    requires Usable(rot)
    ensures FailsLast(r.stored, RegisterStage(r, rot, previous).0.stored)
  {
    if rot.stage.Rank() >= 1 {
      VerifyFailsLast(r, rot, previous);
    } else {
      var rot1 := Advance(rot, Preparing);
      var (r1, reply1) := Store(r, rot1);
      if reply1 == Ok {
        var (r2, reply2) := CallAgent(r1, Register(r1.w.agent, previous, rot.newKey.value));
        if reply2 == Ok {
          AfterRegistration(r2, rot1, previous);
          FailsLater(r.stored, rot1, Registered(r2, rot1, previous).stored);
        }
      }
    }
  }

  /** A call first stores the rotation as it found or made it; of the states after that one only the last may be a
      failure, so a resumed rotation that has moved on no longer counts as failed. */
  lemma OnlyTheLastStateIsAFailure(r: Run, id: string, mint: Credential)
    ensures var stored := Rotate(r, id, mint).0.stored;
            && r.stored <= stored
            && (stored != r.stored ==> stored[|r.stored|] == Begin(r.w, id, mint))
            && forall k :: |r.stored| < k < |stored| - 1 ==> stored[k].status != FailedRecoverable
  {
    var rot := Begin(r.w, id, mint);
    if Usable(rot) {
      var (r1, reply) := Store(r, rot);
      if reply == Ok {
        RegisterFailsLast(r1, rot, if rot.oldKey.Some? then rot.oldKey.value else r.w.local);
      }
    }
  }
}
