/** `rotateAgentAuth` as it runs: state is reassigned and stored stage by stage, with a retry loop. */
module RotationHost {
  import opened Options
  import opened KeyRotation

  class Launcher {
    var agent: map<KeyId, AgentKey>
    var local: Credential
    var rotation: Option<Rotation>
    var net: seq<Fault>
    var disk: seq<Fault>
    var revokes: nat
    ghost var stored: seq<Rotation>

    ghost function View(): Run reads this {
      Run(World(agent, local, rotation), net, disk, revokes, stored)
    }

    constructor (agent: map<KeyId, AgentKey>, local: Credential, rotation: Option<Rotation>, net: seq<Fault>,
                 disk: seq<Fault>)
      ensures View() == Run(World(agent, local, rotation), net, disk, 0, [])
    {
      this.agent, this.local, this.rotation, this.net, this.disk := agent, local, rotation, net, disk;
      this.revokes, this.stored := 0, [];
    }

    method CallTheAgent(answer: (map<KeyId, AgentKey>, Reply)) returns (reply: Reply)
      modifies this
      ensures (View(), reply) == CallAgent(old(View()), answer)
    {
      if Effective(FaultOf(net)) {
        agent := answer.0;
      }
      reply := Seen(FaultOf(net), answer.1);
      net := Rest(net);
    }

    method SignedHealth(signer: Credential) returns (reply: Reply)
      modifies this
      ensures (View(), reply) == Health(old(View()), signer)
    {
      reply := CallTheAgent((agent, Authenticate(agent, signer)));
    }

    method StoreRotation(rot: Rotation) returns (reply: Reply)
      modifies this
      ensures (View(), reply) == Store(old(View()), rot)
    {
      if Effective(FaultOf(disk)) {
        rotation := Some(rot);
        stored := stored + [rot];
      }
      reply := Seen(FaultOf(disk), Ok);
      disk := Rest(disk);
    }

    method StoreCredential(key: Credential) returns (reply: Reply)
      modifies this
      ensures (View(), reply) == StoreLocal(old(View()), key)
    {
      if Effective(FaultOf(disk)) {
        local := key;
      }
      reply := Seen(FaultOf(disk), Ok);
      disk := Rest(disk);
    }

    method WriteProof() returns (reply: Reply)
      modifies this
      ensures (View(), reply) == StoreProof(old(View()))
    {
      reply := Seen(FaultOf(disk), Ok);
      disk := Rest(disk);
    }

    /** A reply that is not `Ok`: the process is gone, or the failure handler stores the state again. */
    method Stop(reply: Reply, state: Rotation, outcome: Outcome) returns (end: Outcome)
      modifies this
      ensures (View(), end) == if reply == Dead then (old(View()), Died) else Catch(old(View()), state, outcome)
    {
      if reply == Dead {
        return Died;
      }
      var again := StoreRotation(state.(status := FailedRecoverable));
      end := if again == Dead && outcome == Failed then Died else outcome;
    }

    method RevokeOldKey(oldId: KeyId, previous: Credential) returns (result: Attempt)
      modifies this
      ensures (View(), result) == RevokeTwice(old(View()), oldId, previous)
    {
      var attempt := 0;
      ghost var start := View();
      result := Retry;
      while attempt < 2 && result == Retry
        invariant 0 <= attempt <= 2
        invariant attempt == 0 ==> View() == start && result == Retry
        invariant attempt == 1 ==> (View(), result) == TryRevoke(start, oldId, previous, false)
        invariant attempt == 2 ==> (View(), result) == RevokeTwice(start, oldId, previous) && result != Retry
      {
        revokes := revokes + 1;
        var reply := CallTheAgent(Revoke(agent, local, oldId));
        if reply == Dead {
          result := Gone;
        } else if reply == Ok {
          result := Attempt.Done;
        } else {
          var status := SignedHealth(previous);
          if status == Dead {
            result := Gone;
          } else if status == KeyRevoked {
            result := Attempt.Done;
          } else if !(reply.Lost? && reply.retryable) || attempt >= 1 {
            result := GiveUp;
          }
        }
        attempt := attempt + 1;
      }
    }

    /** Registers the new key at the agent.  Skipped when the stored stage is already past it. */
    method RegisterNewKey(state: Rotation, previous: Credential) returns (state': Rotation, stop: Option<Outcome>)
      requires Usable(state)
      modifies this
      ensures stop.Some? ==> (View(), stop.value) == RegisterStage(old(View()), state, previous)
      ensures stop.None? ==>
                Usable(state') && VerifyStage(View(), state', previous) == RegisterStage(old(View()), state, previous)
    {
      state' := state;
      if state.stage.Rank() < 1 {
        var reply := StoreRotation(Advance(state, Preparing));
        if reply != Ok {
          var end := Stop(reply, state', Failed);
          return state', Some(end);
        }
        state' := Advance(state, Preparing);
        reply := CallTheAgent(Register(agent, previous, state'.newKey.value));
        if reply != Ok {
          var end := Stop(reply, state', Failed);
          return state', Some(end);
        }
        reply := StoreRotation(Advance(state', NewKeyRegistered));
        if reply != Ok {
          var end := Stop(reply, state', Failed);
          return state', Some(end);
        }
        state' := Advance(state', NewKeyRegistered);
      }
      stop := None;
    }

    /** Checks that the agent accepts the new key.  Skipped when the stored stage is already past it. */
    method VerifyNewKey(state: Rotation, previous: Credential) returns (state': Rotation, stop: Option<Outcome>)
      requires Usable(state)
      modifies this
      ensures stop.Some? ==> (View(), stop.value) == VerifyStage(old(View()), state, previous)
      ensures stop.None? ==>
                Usable(state') && PromoteStage(View(), state', previous) == VerifyStage(old(View()), state, previous)
    {
      state' := state;
      if state.stage.Rank() < 2 {
        var reply := SignedHealth(state.newKey.value);
        if reply != Ok {
          var end := Stop(reply, state', Failed);
          return state', Some(end);
        }
        reply := StoreRotation(Advance(state', NewKeyVerified));
        if reply != Ok {
          var end := Stop(reply, state', Failed);
          return state', Some(end);
        }
        state' := Advance(state', NewKeyVerified);
      }
      stop := None;
    }

    /** Makes the new key the local one.  Skipped when the stored stage is already past it. */
    method PromoteNewKey(state: Rotation, previous: Credential) returns (state': Rotation, stop: Option<Outcome>)
      requires Usable(state)
      modifies this
      ensures stop.Some? ==> (View(), stop.value) == PromoteStage(old(View()), state, previous)
      ensures stop.None? ==>
                Usable(state') && RevokeStage(View(), state', previous) == PromoteStage(old(View()), state, previous)
    {
      state' := state;
      if state.stage.Rank() < 3 {
        var reply := StoreCredential(state.newKey.value);
        if reply != Ok {
          var end := Stop(reply, state', Failed);
          return state', Some(end);
        }
        reply := StoreRotation(Advance(state', LocalPromoted));
        if reply != Ok {
          var end := Stop(reply, state', Failed);
          return state', Some(end);
        }
        state' := Advance(state', LocalPromoted);
      }
      stop := None;
    }

    /** Revokes the old key.  Skipped when the stored stage is already past it. */
    method RetireOldKey(state: Rotation, previous: Credential) returns (state': Rotation, stop: Option<Outcome>)
      requires Usable(state)
      modifies this
      ensures stop.Some? ==> (View(), stop.value) == RevokeStage(old(View()), state, previous)
      ensures stop.None? ==>
                Usable(state') && CompleteStage(View(), state', previous) == RevokeStage(old(View()), state, previous)
    {
      state' := state;
      if state.stage.Rank() < 4 {
        var result := RevokeOldKey(state.oldId, previous);
        var reply := if result == Attempt.Done then Ok else if result == Gone then Dead else Refused;
        if reply != Ok {
          var end := Stop(reply, state', Failed);
          return state', Some(end);
        }
        reply := StoreRotation(Advance(state', OldKeyRevoked));
        if reply != Ok {
          var end := Stop(reply, state', Failed);
          return state', Some(end);
        }
        state' := Advance(state', OldKeyRevoked);
      }
      stop := None;
    }

    method Complete(state: Rotation, previous: Credential) returns (outcome: Outcome)
      modifies this
      ensures (View(), outcome) == CompleteStage(old(View()), state, previous)
    {
      var reply := SignedHealth(previous);
      if reply == Dead {
        return Died;
      }
      reply := SignedHealth(local);
      if reply == Ok {
        reply := StoreRotation(CompletedRotation(state, local.id));
        if reply == Ok {
          reply := WriteProof();
          if reply == Ok {
            return Finished;
          }
          outcome := Stop(reply, state, FailedAfterCompletion);
          return;
        }
      }
      outcome := Stop(reply, state, Failed);
    }

    method RotateAgentAuth(id: string, mint: Credential) returns (outcome: Outcome)
      modifies this
      ensures (View(), outcome) == Rotate(old(View()), id, mint)
    {
      var state := Begin(World(agent, local, rotation), id, mint);
      if !Usable(state) {
        return Rejected;
      }
      var previous := if state.oldKey.Some? then state.oldKey.value else local;
      var reply := StoreRotation(state);
      if reply != Ok {
        return if reply == Dead then Died else Failed;
      }
      var stop: Option<Outcome>;
      state, stop := RegisterNewKey(state, previous);
      if stop.None? {
        state, stop := VerifyNewKey(state, previous);
      }
      if stop.None? {
        state, stop := PromoteNewKey(state, previous);
      }
      if stop.None? {
        state, stop := RetireOldKey(state, previous);
      }
      if stop.None? {
        outcome := Complete(state, previous);
      } else {
        outcome := stop.value;
      }
    }
  }
}
