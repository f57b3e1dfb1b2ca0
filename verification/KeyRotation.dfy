/**
  Rotation of the agent signing key: a resumable protocol between the local credential file, the
  rotation file and the remote agent's key table.

  Every file write and every remote call meets a fault chosen by a script: it may fail before or after
  taking effect, with or without the process dying.
 */
module KeyRotation {
  import opened Options

  type KeyId = string

  datatype Credential = Credential(id: KeyId, secret: string)

  datatype KeyStatus = Active | Revoked

  datatype AgentKey = AgentKey(secret: string, status: KeyStatus)

  datatype Stage = Preparing | NewKeyRegistered | NewKeyVerified | LocalPromoted | OldKeyRevoked | Completed
  {
    function Rank(): nat {
      match this
      case Preparing => 0
      case NewKeyRegistered => 1
      case NewKeyVerified => 2
      case LocalPromoted => 3
      case OldKeyRevoked => 4
      case Completed => 5
    }
  }

  datatype Status = AtStage | FailedRecoverable | Done

  /** The rotation file.  A completed rotation keeps the key ids and drops both credentials. */
  datatype Rotation = Rotation(id: string, status: Status, stage: Stage, oldId: KeyId, oldKey: Option<Credential>,
                               newId: KeyId, newKey: Option<Credential>)

  datatype World = World(agent: map<KeyId, AgentKey>, local: Credential, rotation: Option<Rotation>)

  // ---------------------------------------------------------------- the agent

  datatype Reply = Ok | KeyRevoked | Refused | Lost(retryable: bool) | Dead

  function Authenticate(agent: map<KeyId, AgentKey>, signer: Credential): Reply {
    if signer.id !in agent then Refused
    else if agent[signer.id].status == Revoked then KeyRevoked
    else if agent[signer.id].secret != signer.secret then Refused
    else Ok
  }

  function ActiveKeys(agent: map<KeyId, AgentKey>): set<KeyId> {
    set k | k in agent && agent[k].status == Active
  }

  function Register(agent: map<KeyId, AgentKey>, signer: Credential, key: Credential): (map<KeyId, AgentKey>, Reply) {
    if Authenticate(agent, signer) != Ok then (agent, Authenticate(agent, signer))
    else if key.id == signer.id then (agent, Refused)
    else if key.id in agent then (agent, if agent[key.id] == AgentKey(key.secret, Active) then Ok else Refused)
    else if |ActiveKeys(agent)| >= 2 then (agent, Refused)
    else (agent[key.id := AgentKey(key.secret, Active)], Ok)
  }

  function Revoke(agent: map<KeyId, AgentKey>, signer: Credential, id: KeyId): (map<KeyId, AgentKey>, Reply) {
    if Authenticate(agent, signer) != Ok then (agent, Authenticate(agent, signer))
    else if id !in agent then (agent, Refused)
    else (agent[id := agent[id].(status := Revoked)], Ok)
  }

  // ---------------------------------------------------------------- faults

  datatype Fault = Fine | Error(effect: bool, retryable: bool) | Crash(effect: bool)

  function FaultOf(script: seq<Fault>): Fault { if script == [] then Fine else script[0] }

  function Rest(script: seq<Fault>): seq<Fault> { if script == [] then [] else script[1..] }

  /** Whether a write or call that meets the fault takes effect. */
  predicate Effective(f: Fault) {
    match f case Fine => true case Error(effect, _) => effect case Crash(effect) => effect
  }

  /** What the caller sees when the other side answers `reply`. */
  function Seen(f: Fault, reply: Reply): Reply {
    match f case Fine => reply case Error(_, retryable) => Lost(retryable) case Crash(_) => Dead
  }

  /** A run in progress: the world, the faults still to come on the network and on the disk, the number
      of revoke calls made, and every rotation state stored so far. */
  datatype Run = Run(w: World, net: seq<Fault>, disk: seq<Fault>, revokes: nat, stored: seq<Rotation>)

  function CallAgent(r: Run, answer: (map<KeyId, AgentKey>, Reply)): (Run, Reply) {
    var f := FaultOf(r.net);
    (r.(w := if Effective(f) then r.w.(agent := answer.0) else r.w, net := Rest(r.net)), Seen(f, answer.1))
  }

  function Health(r: Run, signer: Credential): (Run, Reply) {
    CallAgent(r, (r.w.agent, Authenticate(r.w.agent, signer)))
  }

  function Store(r: Run, rot: Rotation): (Run, Reply) {
    var f := FaultOf(r.disk);
    (if Effective(f) then r.(w := r.w.(rotation := Some(rot)), disk := Rest(r.disk), stored := r.stored + [rot])
     else r.(disk := Rest(r.disk)),
     Seen(f, Ok))
  }

  function StoreLocal(r: Run, key: Credential): (Run, Reply) {
    var f := FaultOf(r.disk);
    (r.(w := if Effective(f) then r.w.(local := key) else r.w, disk := Rest(r.disk)), Seen(f, Ok))
  }

  /** The proof file is not read back by the protocol. */
  function StoreProof(r: Run): (Run, Reply) {
    (r.(disk := Rest(r.disk)), Seen(FaultOf(r.disk), Ok))
  }

  // ---------------------------------------------------------------- one call of rotateAgentAuth

  /** `FailedAfterCompletion`: the rotation was stored as completed but its proof could not be written. */
  datatype Outcome = Finished | Failed | FailedAfterCompletion | Died | Rejected

  predicate Usable(rot: Rotation) {
    rot.newKey.Some? && rot.newId == rot.newKey.value.id
  }

  function Begin(w: World, id: string, mint: Credential): Rotation {
    if w.rotation.Some? && w.rotation.value.status != Status.Done then w.rotation.value
    else Rotation(id, AtStage, Preparing, w.local.id, Some(w.local), mint.id, Some(mint))
  }

  function Rotate(r: Run, id: string, mint: Credential): (Run, Outcome) {
    var rot := Begin(r.w, id, mint);
    if !Usable(rot) then (r, Rejected)
    else
      var (r1, reply) := Store(r, rot);
      if reply == Dead then (r1, Died)
      else if reply != Ok then (r1, Failed)
      else RegisterStage(r1, rot, if rot.oldKey.Some? then rot.oldKey.value else r.w.local)
  }

  /** The `catch` block: the last stored state is stored again as a recoverable failure. */
  function Catch(r: Run, rot: Rotation, outcome: Outcome): (Run, Outcome) {
    var (r1, reply) := Store(r, rot.(status := FailedRecoverable));
    (r1, if reply == Dead && outcome == Failed then Died else outcome)
  }

  function Advance(rot: Rotation, stage: Stage): Rotation {
    rot.(status := AtStage, stage := stage)
  }

  function RegisterStage(r: Run, rot: Rotation, previous: Credential): (Run, Outcome)
    requires Usable(rot)
  {
    if rot.stage.Rank() >= 1 then VerifyStage(r, rot, previous)
    else
      var rot1 := Advance(rot, Preparing);
      var (r1, reply1) := Store(r, rot1);
      if reply1 == Dead then (r1, Died)
      else if reply1 != Ok then Catch(r1, rot, Failed)
      else
        var (r2, reply2) := CallAgent(r1, Register(r1.w.agent, previous, rot.newKey.value));
        if reply2 == Dead then (r2, Died)
        else if reply2 != Ok then Catch(r2, rot1, Failed)
        else
          var rot3 := Advance(rot1, NewKeyRegistered);
          var (r3, reply3) := Store(r2, rot3);
          if reply3 == Dead then (r3, Died)
          else if reply3 != Ok then Catch(r3, rot1, Failed)
          else VerifyStage(r3, rot3, previous)
  }

  function VerifyStage(r: Run, rot: Rotation, previous: Credential): (Run, Outcome)
    requires Usable(rot)
  {
    if rot.stage.Rank() >= 2 then PromoteStage(r, rot, previous)
    else
      var (r1, reply1) := Health(r, rot.newKey.value);
      if reply1 == Dead then (r1, Died)
      else if reply1 != Ok then Catch(r1, rot, Failed)
      else
        var rot2 := Advance(rot, NewKeyVerified);
        var (r2, reply2) := Store(r1, rot2);
        if reply2 == Dead then (r2, Died)
        else if reply2 != Ok then Catch(r2, rot, Failed)
        else PromoteStage(r2, rot2, previous)
  }

  function PromoteStage(r: Run, rot: Rotation, previous: Credential): (Run, Outcome)
    requires Usable(rot)
  {
    if rot.stage.Rank() >= 3 then RevokeStage(r, rot, previous)
    else
      var (r1, reply1) := StoreLocal(r, rot.newKey.value);
      if reply1 == Dead then (r1, Died)
      else if reply1 != Ok then Catch(r1, rot, Failed)
      else
        var rot2 := Advance(rot, LocalPromoted);
        var (r2, reply2) := Store(r1, rot2);
        if reply2 == Dead then (r2, Died)
        else if reply2 != Ok then Catch(r2, rot, Failed)
        else RevokeStage(r2, rot2, previous)
  }

  datatype Attempt = Done | Retry | GiveUp | Gone

  /** One turn of the retry loop: revoke, and after an error ask whether the old key is revoked after all. */
  function TryRevoke(r: Run, oldId: KeyId, previous: Credential, last: bool): (Run, Attempt) {
    var (r1, reply1) := CallAgent(r.(revokes := r.revokes + 1), Revoke(r.w.agent, r.w.local, oldId));
    if reply1 == Dead then (r1, Gone)
    else if reply1 == Ok then (r1, Attempt.Done)
    else
      var (r2, reply2) := Health(r1, previous);
      if reply2 == Dead then (r2, Gone)
      else if reply2 == KeyRevoked then (r2, Attempt.Done)
      else if !(reply1.Lost? && reply1.retryable) || last then (r2, GiveUp)
      else (r2, Retry)
  }

  function RevokeTwice(r: Run, oldId: KeyId, previous: Credential): (Run, Attempt) {
    var (r1, attempt) := TryRevoke(r, oldId, previous, false);
    if attempt == Retry then TryRevoke(r1, oldId, previous, true) else (r1, attempt)
  }

  function RevokeStage(r: Run, rot: Rotation, previous: Credential): (Run, Outcome)
    requires Usable(rot)
  {
    if rot.stage.Rank() >= 4 then CompleteStage(r, rot, previous)
    else
      var (r1, attempt) := RevokeTwice(r, rot.oldId, previous);
      if attempt == Gone then (r1, Died)
      else if attempt != Attempt.Done then Catch(r1, rot, Failed)
      else
        var rot2 := Advance(rot, OldKeyRevoked);
        var (r2, reply2) := Store(r1, rot2);
        if reply2 == Dead then (r2, Died)
        else if reply2 != Ok then Catch(r2, rot, Failed)
        else CompleteStage(r2, rot2, previous)
  }

  function CompletedRotation(rot: Rotation, newId: KeyId): Rotation {
    Rotation(rot.id, Status.Done, Completed, rot.oldId, None, newId, None)
  }

  function CompleteStage(r: Run, rot: Rotation, previous: Credential): (Run, Outcome) {
    var (r1, reply1) := Health(r, previous);
    if reply1 == Dead then (r1, Died)
    else
      var (r2, reply2) := Health(r1, r1.w.local);
      if reply2 == Dead then (r2, Died)
      else if reply2 != Ok then Catch(r2, rot, Failed)
      else
        var (r3, reply3) := Store(r2, CompletedRotation(rot, r2.w.local.id));
        if reply3 == Dead then (r3, Died)
        else if reply3 != Ok then Catch(r3, rot, Failed)
        else
          var (r4, reply4) := StoreProof(r3);
          if reply4 == Dead then (r4, Died)
          else if reply4 != Ok then Catch(r4, rot, FailedAfterCompletion)
          else (r4, Finished)
  }
}
