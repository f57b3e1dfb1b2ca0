/** What one step leaves on disk, field by field, and that a call which is over lets the next one in. */
module CoordinatorEffects {
  import opened Options
  import opened Coordinator
  import opened CoordinatorSafety
  import opened CoordinatorRuns

  // ---------------------------------------------------------------- the end of a call

  /** The lock goes with the call: whatever ends a call in a living process, success, failure, a checked
      replay or a refusal behind the lock, the lock is free afterwards. */
  lemma LeavingFreesTheLock(s: State, step: Step, s': State, c: CallId)
    requires Inv(s) && Next(s, step, s') && c in s.calls && c !in s'.calls && s.calls[c].pid in s'.alive
    ensures s'.disk.lock.Free? && s'.calls == map[]
  {
    var a := step.action;
    assert HoldsLock(s, s.calls[c]);
    assert step.cut.None? && HasCall(a) && a.c == c;
    var st := StretchOf(s, a);
    ReleasesLast(s, a, c);
    assert st.after == Leave;
  }

  /** The stretch that ends a call ends with the release. */
  lemma ReleasesLast(s: State, a: Action, c: CallId)
    requires Inv(s) && Enabled(s, a) && HasCall(a) && !a.Admit? && a.c == c && c in s.calls
    ensures StretchOf(s, a).after == Leave ==> Apply(s.disk, StretchOf(s, a).writes).lock.Free?
  {
    assert HoldsLock(s, s.calls[c]);
    var ws := StretchOf(s, a).writes;
    if StretchOf(s, a).after == Leave {
      if |ws| == 1 {
        assert ws == [ws[0]];
        OneWrite(s.disk, ws[0], None, s.issued);
      } else {
        assert ws == [ws[0], ws[1]];
        TwoWrites(s.disk, ws[0], ws[1], None, s.issued);
      }
    }
  }

  /** While nobody is admitted a free lock stays free. */
  lemma {:induction false} FreeStaysFree(states: seq<State>, steps: seq<Step>, i: nat, j: nat)
    requires Run(states, steps) && i <= j < |states| && states[i].disk.lock.Free? && states[i].calls == map[]
    requires forall k :: i <= k < j ==> !steps[k].action.Admit?
    ensures states[j].disk.lock.Free? && states[j].calls == map[]
    decreases j - i
  {
    if i < j {
      FreeStaysFree(states, steps, i, j - 1);
      assert Next(states[j - 1], steps[j - 1], states[j]);
      StillFree(states[j - 1], steps[j - 1], states[j]);
    }
  }

  lemma StillFree(s: State, step: Step, s': State)
    requires Next(s, step, s') && !step.action.Admit? && s.disk.lock.Free? && s.calls == map[]
    ensures s'.disk.lock.Free? && s'.calls == map[]
  {
    var a := step.action;
    if a.Reconcile? {
      var ws := StretchOf(s, a).writes;
      assert ws[..|ws|] == ws;
      SweepUpdates(s.disk.records, a.listing, None);
      assert ws == [] + Sweep(s.disk.records, a.listing, None);
      PutsKeepLock(s.disk, ws[..if step.cut.Some? then step.cut.value else |ws|]);
    }
  }

  /** After a call has ended, in whatever way, the next admission with an unused key gets through. */
  lemma NextRequestGetsThrough(states: seq<State>, steps: seq<Step>, i: nat, j: nat, c: CallId)
    requires Run(states, steps) && i < j < |steps|
    requires c in states[i].calls && c !in states[i + 1].calls && states[i].calls[c].pid in states[i + 1].alive
    requires steps[j].action.Admit? && steps[j].cut.None? && forall k :: i < k < j ==> !steps[k].action.Admit?
    requires KeyUnused(states[j].disk.records, steps[j].action.req.key)
    ensures var a := steps[j].action;
            && a.c in states[j + 1].calls && states[j + 1].calls[a.c].op == a.newOp
            && (!a.req.resolver ==> states[j + 1].calls[a.c].phase.Executing?)
  {
    RunKeepsInv(states, steps, i);
    RunKeepsInv(states, steps, j);
    assert Next(states[i], steps[i], states[i + 1]);
    assert Next(states[j], steps[j], states[j + 1]);
    LeavingFreesTheLock(states[i], steps[i], states[i + 1], c);
    FreeStaysFree(states, steps, i + 1, j);
    TurnedAwayExactly(states[j], steps[j].action);
  }

  // ---------------------------------------------------------------- what a step writes

  /** The success is recorded, the lock is gone, and nothing else changes. */
  lemma SuccessLeaves(s: State, c: CallId, s': State)
    requires Inv(s) && Next(s, Step(Succeed(c), None), s')
    ensures var call, r := s.calls[c], s.disk.records[s.calls[c].op];
            && s'.disk == Disk(
                            s.disk.records[call.op := r.(status := Succeeded, stage := "completed", error := "")], Free)
            && s'.history == s.history + [Won(call.op, call.req.key)] && s'.calls == map[]
  {
    assert HoldsLock(s, s.calls[c]);
    var ws := StretchOf(s, Succeed(c)).writes;
    TwoWrites(s.disk, ws[0], ws[1], None, {});
    assert ws == [ws[0], ws[1]];
  }

  /** The failure is recorded with its code and the stage it happened in, if it can be, and the lock is gone. */
  lemma FailureLeaves(s: State, c: CallId, code: string, recorded: bool, s': State)
    requires Inv(s) && Next(s, Step(Fail(c, code, recorded), None), s')
    ensures var call, r := s.calls[c], s.disk.records[s.calls[c].op];
            var stage := if call.stage == "" then "failed" else call.stage;
            && s'.disk.lock == Free && s'.history == s.history && s'.calls == map[]
            && s'.disk.records == if !recorded then s.disk.records
                                  else s.disk.records[call.op := r.(status := Failed, stage := stage, error := code)]
  {
    assert HoldsLock(s, s.calls[c]);
    var ws := StretchOf(s, Fail(c, code, recorded)).writes;
    if recorded {
      TwoWrites(s.disk, ws[0], ws[1], None, {});
      assert ws == [ws[0], ws[1]];
    } else {
      OneWrite(s.disk, ws[0], None, {});
      assert ws == [ws[0]];
    }
  }

  /** A stage change writes the stage into the record and the call; the end of the execution writes "verifying". */
  lemma StageLeaves(s: State, a: Action, s': State)
    requires Inv(s) && (a.SetStage? || a.Executed?) && Next(s, Step(a, None), s')
    ensures var call := s.calls[a.c];
            var stage := if a.Executed? then "verifying" else if a.stage != "" then a.stage
                         else if call.stage != "" then call.stage else "executing";
            && s'.disk == s.disk.(records := s.disk.records[call.op := s.disk.records[call.op].(stage := stage)])
            && s'.calls == s.calls[a.c := call.(stage := stage, phase := if a.Executed? then Verifying else Executing)]
            && s'.history == s.history
  {
    assert CallOk(s.disk.records, s.calls[a.c]);
    var ws := StretchOf(s, a).writes;
    OneWrite(s.disk, ws[0], None, {});
    assert ws == [ws[0]];
  }

  /** Whatever lock stands there, a release frees its own operation's lock and a heartbeat renews it; neither touches
      another one's lock, or any record. */
  lemma OthersLocksAreSpared(d: Disk, call: Call, now: int)
    ensures var own := d.lock.Held? && d.lock.meta.op == call.op;
            && Apply(d, ReleaseWrites(d, call.op)) == (if own then Disk(d.records, Free) else d)
            && Apply(d, HeartbeatWrites(d, call, now))
               == (if own then Disk(d.records, Held(LockMeta(call.op, call.pid, now))) else d)
  {
    if d.lock.Held? && d.lock.meta.op == call.op {
      OneWrite(d, SetLock(Free), None, {});
      OneWrite(d, SetLock(Held(LockMeta(call.op, call.pid, now))), None, {});
    }
  }

  /** A heartbeat renews the lock of its call to this instant and leaves the rest. */
  lemma BeatLeaves(s: State, c: CallId, s': State)
    requires Inv(s) && Next(s, Step(Beat(c), None), s')
    ensures s' == s.(disk := s.disk.(lock := Held(LockMeta(s.calls[c].op, s.calls[c].pid, s.now))))
  {
    assert HoldsLock(s, s.calls[c]);
    var ws := StretchOf(s, Beat(c)).writes;
    OneWrite(s.disk, ws[0], None, {});
    assert ws == [ws[0]];
    assert s.calls[c := s.calls[c]] == s.calls;
  }

  // ---------------------------------------------------------------- what a reconcile writes

  /** Sixty seconds without a heartbeat, or a dead owner. */
  predicate Abandoned(lock: Lock, alive: set<Pid>, now: int, bound: int) {
    lock.Held? && (lock.meta.pid !in alive || now > lock.meta.heartbeat + bound)
  }

  predicate Swept(r: Record, id: OpId, active: Option<OpId>) {
    !r.legacy && (r.status == Requested || r.status == Running) && active != Some(id)
  }

  lemma {:induction false} SweepExactly(d: Disk, records: map<OpId, Record>, listing: seq<OpId>, active: Option<OpId>,
                                        id: OpId)
    requires id in d.records && forall i :: 0 <= i < |listing| ==> listing[i] in records
    requires forall i, j :: 0 <= i < j < |listing| ==> listing[i] != listing[j]
    ensures var d' := Apply(d, Sweep(records, listing, active));
            && id in d'.records && d'.lock == d.lock
            && d'.records[id] == if id in listing && Swept(records[id], id, active) then Interrupt(records[id])
                                 else d.records[id]
    decreases |listing|
  {
    if listing != [] {
      var first := listing[0];
      var head := if Swept(records[first], first, active) then [Put(first, Interrupt(records[first]))] else [];
      var d1 := Apply(d, head);
      if head != [] { OneWrite(d, head[0], None, {}); }
      ApplyConcat(d, head, Sweep(records, listing[1..], active));
      SweepExactly(d1, records, listing[1..], active, id);
    }
  }

  /** A reconcile frees an abandoned lock, and interrupts exactly the unfinished records the lock that is
      left does not name: status, error code, and a stage where there is none. */
  lemma ReconcileLeaves(d: Disk, listing: seq<OpId>, alive: set<Pid>, now: int, id: OpId)
    requires Lists(listing, d.records) && id in d.records
    ensures var d' := Apply(d, ReconcileWrites(d, listing, alive, now));
            var r, abandoned := d.records[id], Abandoned(d.lock, alive, now, 60000);
            && d'.lock == (if abandoned then Free else d.lock) && d'.records.Keys == d.records.Keys
            && d'.records[id] ==
                 if r.legacy || !(r.status == Requested || r.status == Running)
                    || (d.lock.Held? && d.lock.meta.op == id && !abandoned) then r
                 else r.(status := Interrupted, stage := if r.stage == "" then "interrupted" else r.stage,
                         error := "operation_interrupted")
  {
    var first := BreakStale(d, alive, now, DEFAULT_STALE_MS);
    UpdatesKeepIds(d, first);
    var d1 := Apply(d, first);
    BrokenLock(d, alive, now, id);
    ReconcileKeepsIds(d, listing, alive, now);
    ApplyConcat(d, first, Sweep(d1.records, listing, ActiveOp(d1.lock)));
    SweepExactly(d1, d1.records, listing, ActiveOp(d1.lock), id);
  }

  lemma BrokenLock(d: Disk, alive: set<Pid>, now: int, id: OpId)
    requires id in d.records
    ensures var d1 := Apply(d, BreakStale(d, alive, now, 60000));
            var r, abandoned := d.records[id], Abandoned(d.lock, alive, now, 60000);
            && d1.lock == (if abandoned then Free else d.lock) && id in d1.records
            && d1.records[id] == if abandoned && d.lock.meta.op == id && !r.legacy
                                    && (r.status == Requested || r.status == Running) then Interrupt(r) else r
  {
    var ws := BreakStale(d, alive, now, 60000);
    if |ws| == 1 {
      OneWrite(d, ws[0], None, {});
    } else if |ws| == 2 {
      TwoWrites(d, ws[0], ws[1], None, {});
      assert ws == [ws[0], ws[1]];
    }
  }

  // ---------------------------------------------------------------- what an admission does

  /** A lock that keeps a newcomer out, with its own bound: no readable metadata, or a live owner with a
      fresh heartbeat. */
  predicate Barred(lock: Lock, alive: set<Pid>, now: int, bound: int) {
    lock.Bare? || (lock.Held? && !Abandoned(lock, alive, now, bound))
  }

  /** Taking the lock: refused exactly when it is barred; otherwise the taker's, written now, and of the
      records only an unfinished one that an abandoned lock names is interrupted. */
  lemma AcquireLeaves(d: Disk, op: OpId, pid: Pid, alive: set<Pid>, now: int, bound: nat)
    ensures var ws := AcquireWrites(d, op, pid, alive, now, bound);
            && (ws.None? <==> Barred(d.lock, alive, now, bound))
            && (ws.Some? ==>
                  && Apply(d, ws.value).lock == Held(LockMeta(op, pid, now))
                  && Apply(d, ws.value).records.Keys == d.records.Keys
                  && forall id :: id in d.records
                                  && (d.lock.Free? || d.lock.meta.op != id || !d.records[id].Unfinished()) ==>
                       Apply(d, ws.value).records[id] == d.records[id])
  {
    var ws := AcquireWrites(d, op, pid, alive, now, bound);
    if ws.Some? {
      var take := [SetLock(Bare), SetLock(Held(LockMeta(op, pid, now)))];
      TwoWrites(d, take[0], take[1], None, {});
      if d.lock.Held? {
        var first := BreakStale(d, alive, now, bound);
        ApplyConcat(d, first, take);
        TwoWrites(Apply(d, first), take[0], take[1], None, {});
        BreakStaleLegal(d, alive, now, bound, {});
        forall id | id in d.records && d.lock.meta.op != id ensures Apply(d, first).records[id] == d.records[id] {
          Untouched(d, first, id);
        }
      }
    }
  }

  /** The record of a call that starts: made from the request, or the resumed one. */
  function StartedRecord(records: map<OpId, Record>, op: OpId, req: Request): Record {
    if op in records then records[op].(status := Running, stage := "executing", error := "")
    else Record(false, req.opType, req.key, req.fingerprint, req.metadata, Running, "executing", "")
  }

  /** Behind the lock: a call that starts has its record running, a refused one has given the lock back. */
  lemma BeginLeaves(d: Disk, call: Call, listing: seq<OpId>)
    requires Lists(listing, d.records) && call.phase.Resolving? && d.lock.Held? && d.lock.meta.op == call.op
    requires call.resumed.Some? <==> call.op in d.records
    ensures var st := BeginStretch(d, call, listing);
            var d' := Apply(d, st.writes);
            && (st.after.Leave? ==> d' == d.(lock := Free))
            && (st.after.Stay? ==> st.after.call == call.(phase := st.after.call.phase, stage := st.after.call.stage))
            && (st.after.Stay? && !st.after.call.phase.Executing? ==> d' == d && st.after.call.phase.CheckingReplay?)
            && (st.after.Stay? && st.after.call.phase.Executing? ==>
                  && st.after.call.stage == "executing"
                  && d' == d.(records := d.records[call.op := StartedRecord(d.records, call.op, call.req)]))
  {
    var st := BeginStretch(d, call, listing);
    var ws := st.writes;
    if st.after.Leave? {
      OneWrite(d, ws[0], None, {});
      assert ws == [ws[0]];
    } else if st.after.call.phase.Executing? {
      StartLeaves(d, call, ws);
    }
  }

  /** The writes of a start, as one. */
  lemma StartLeaves(d: Disk, call: Call, ws: seq<Write>)
    requires call.resumed.Some? <==> call.op in d.records
    requires var resumed := if call.resumed.Some? then OrElse(call.resumed.value, "executing") else "";
             var r := if call.op in d.records
                      then d.records[call.op].(status := Running, stage := resumed, error := "")
                      else NewRecord(call.req);
             ws == if call.op in d.records then [Put(call.op, r), Put(call.op, r.(stage := "executing"))]
                   else [Put(call.op, r), Put(call.op, r.(status := Running, stage := "preparing")),
                         Put(call.op, r.(status := Running, stage := "executing"))]
    ensures Apply(d, ws) == d.(records := d.records[call.op := StartedRecord(d.records, call.op, call.req)])
  {
    if call.op in d.records {
      TwoWrites(d, ws[0], ws[1], None, {});
      assert d.records[call.op := ws[0].record][call.op := ws[1].record] == d.records[call.op := ws[1].record];
    } else {
      NewRecordWritten(d, call, ws);
      PutsKeepLock(d, ws);
    }
  }

  /** What the second half of a post-lock resolver leaves, in the same terms. */
  lemma ResolvedLeaves(s: State, c: CallId, continues: bool, listing: seq<OpId>, s': State)
    requires Inv(s) && Next(s, Step(Resolved(c, continues, listing), None), s')
    ensures c !in s'.calls ==> s'.disk == s.disk.(lock := Free) && s'.history == s.history
    ensures !continues ==> c !in s'.calls
    ensures c in s'.calls ==>
              && s'.calls[c] == s.calls[c].(phase := s'.calls[c].phase, stage := s'.calls[c].stage)
              && if s'.calls[c].phase.Executing?
                 then var call := s.calls[c];
                      && s'.disk == s.disk.(records :=
                           s.disk.records[call.op := StartedRecord(s.disk.records, call.op, call.req)])
                      && s'.history == s.history + [Started(call.op, call.req.key, call.req.fingerprint)]
                 else s'.disk == s.disk && s'.history == s.history && s'.calls[c].phase.CheckingReplay?
  {
    assert HoldsLock(s, s.calls[c]) && CallOk(s.disk.records, s.calls[c]);
    if continues {
      BeginLeaves(s.disk, s.calls[c], listing);
    } else {
      var ws := StretchOf(s, Resolved(c, continues, listing)).writes;
      OneWrite(s.disk, ws[0], None, {});
      assert ws == [ws[0]];
    }
  }

  /** The status an admission finds after its reconcile. */
  function FoundStatus(d: Disk, id: OpId, alive: set<Pid>, now: int): Status
    requires id in d.records
  {
    var r := d.records[id];
    if (r.status == Requested || r.status == Running)
       && !(d.lock.Held? && d.lock.meta.op == id && !Abandoned(d.lock, alive, now, 60000)) then Interrupted
    else r.status
  }

  /** The lock turns a request away: fresh under the default bound and under the request's own. */
  predicate Shut(s: State, req: Request) {
    && Barred(s.disk.lock, s.alive, s.now, 60000)
    && Barred(s.disk.lock, s.alive, s.now, if req.staleMs == 0 then 60000 else req.staleMs)
  }

  /** The request is worked on as this operation, unless the lock turns it away. */
  predicate Runs(a: Action, st: Stretch, op: OpId, shut: bool)
    requires a.Admit?
  {
    if shut then st.outcome == Conflict && st.after == Leave
    else st.after.Stay? && st.after.call.op == op && st.after.call.req == a.req && st.after.call.pid == a.pid
         && st.after.call.phase == if a.req.resolver then Resolving else Executing
  }

  /** What the record of the key decides, with the status the reconcile has left it in. */
  predicate Decided(r: Record, id: OpId, status: Status, a: Action, st: Stretch, shut: bool)
    requires a.Admit?
  {
    if r.fingerprint != a.req.fingerprint then st.outcome == Rejected(KeyConflict) && st.after == Leave
    else if status == Succeeded then st.outcome == Replayed(id) && st.after == Leave
    else if status == Requested || status == Running then st.outcome == Rejected(InProgress) && st.after == Leave
    else if status in a.req.resume then Runs(a, st, id, shut)
    else st.outcome == Rejected(NeedsNewKey) && st.after == Leave
  }

  /** The answer to a request whose key is checked before the lock: by the one record of the key, if there
      is one, and by the lock. */
  lemma AdmissionDecides(s: State, a: Action)
    requires Inv(s) && a.Admit? && Enabled(s, a) && Supported(a.req) && !a.req.deferred
    ensures KeyUnused(s.disk.records, a.req.key) ==> Runs(a, StretchOf(s, a), a.newOp, Shut(s, a.req))
    ensures forall id :: id in s.disk.records && Matches(s.disk.records[id], a.req.key) ==>
              Decided(s.disk.records[id], id, FoundStatus(s.disk, id, s.alive, s.now), a, StretchOf(s, a),
                      Shut(s, a.req))
  {
    var d := s.disk;
    var d1 := Apply(d, ReconcileWrites(d, a.listing, s.alive, s.now));
    AdmitReconciles(s, a, ReconcileWrites(d, a.listing, s.alive, s.now));
    ReconcileLegal(d, a.listing, s.alive, s.now, None, s.issued + {a.newOp});
    if KeyUnused(d.records, a.req.key) {
      StillUnused(d, d1, Guard(s, a), a.req.key);
      UnusedRuns(d1, a, s.alive, s.now);
    }
    forall id | id in d.records && Matches(d.records[id], a.req.key)
      ensures Decided(d.records[id], id, FoundStatus(d, id, s.alive, s.now), a, StretchOf(s, a), Shut(s, a.req))
    {
      ReconcileLeaves(d, a.listing, s.alive, s.now, id);
      TakeDecides(d1, a, s.alive, s.now, id);
    }
  }

  /** The records behind a taken lock: still one per key, and the finished ones as they were. */
  lemma TakenRecords(d: Disk, a: Action, op: OpId, alive: set<Pid>, now: int, d2: Disk)
    requires a.Admit? && OneRecordPerKey(d.records) && !Barred(d.lock, alive, now, StaleBound(a.req))
    requires d2 == Apply(d, AcquireWrites(d, op, a.pid, alive, now, StaleBound(a.req)).value)
    ensures OneRecordPerKey(d2.records) && DiskStep(d, d2, None) && d2.records.Keys == d.records.Keys
    ensures d2.lock == Held(LockMeta(op, a.pid, now))
    ensures forall id :: id in d.records && !d.records[id].Unfinished() ==> d2.records[id] == d.records[id]
  {
    var taken := AcquireWrites(d, op, a.pid, alive, now, StaleBound(a.req)).value;
    AcquireLeaves(d, op, a.pid, alive, now, StaleBound(a.req));
    AcquireLegal(d, op, a.pid, alive, now, StaleBound(a.req), d.records.Keys);
    LegalPrefix(d, taken, |taken|, None, d.records.Keys);
    assert taken[..|taken|] == taken;
  }

  lemma UnusedRuns(d: Disk, a: Action, alive: set<Pid>, now: int)
    requires a.Admit? && Lists(a.listing, d.records) && !a.req.deferred && a.newOp !in d.records
    requires KeyUnused(d.records, a.req.key) && OneRecordPerKey(d.records)
    ensures Runs(a, TakeStretch(d, a.req, a.newOp, a.pid, alive, now, a.listing), a.newOp,
                 Barred(d.lock, alive, now, StaleBound(a.req)))
  {
    AcquireLeaves(d, a.newOp, a.pid, alive, now, StaleBound(a.req));
    var taken := AcquireWrites(d, a.newOp, a.pid, alive, now, StaleBound(a.req));
    assert Chose(d, a, Proceed, a.newOp);
    if taken.Some? {
      var d2 := Apply(d, taken.value);
      TakenRecords(d, a, a.newOp, alive, now, d2);
      StillUnused(d, d2, None, a.req.key);
      TakeShape(d, a, alive, now, Proceed, a.newOp, taken.value);
      assert Find(a.listing, d2.records, a.req.key).None?;
    }
  }

  lemma TakeDecides(d: Disk, a: Action, alive: set<Pid>, now: int, id: OpId)
    requires a.Admit? && Lists(a.listing, d.records) && !a.req.deferred && OneRecordPerKey(d.records)
    requires id in d.records && Matches(d.records[id], a.req.key)
    ensures Decided(d.records[id], id, d.records[id].status, a,
                    TakeStretch(d, a.req, a.newOp, a.pid, alive, now, a.listing),
                    Barred(d.lock, alive, now, StaleBound(a.req)))
  {
    FindUnique(a.listing, d.records, id);
    var verdict := CheckIdempotency(d.records, Some(id), a.req, None);
    AcquireLeaves(d, id, a.pid, alive, now, StaleBound(a.req));
    var taken := AcquireWrites(d, id, a.pid, alive, now, StaleBound(a.req));
    if verdict.Resume? && taken.Some? {
      var d2 := Apply(d, taken.value);
      TakenRecords(d, a, id, alive, now, d2);
      TakeShape(d, a, alive, now, verdict, id, taken.value);
      FindUnique(a.listing, d2.records, id);
    }
  }

  /** What an admission whose call goes on to execute leaves: its lock, its record running, its start logged. */
  lemma AdmissionLeaves(s: State, a: Action, s': State)
    requires Inv(s) && a.Admit? && Next(s, Step(a, None), s') && Supported(a.req) && a.c in s'.calls
    ensures var call := s'.calls[a.c];
            && s'.disk.lock == Held(LockMeta(call.op, a.pid, s.now)) && call.pid == a.pid && call.req == a.req
            && (call.phase.Executing? ==>
                  && call.op in s'.disk.records && call.stage == "executing"
                  && s'.disk.records[call.op] == StartedRecord(s.disk.records, call.op, a.req)
                  && s'.history == s.history + [Started(call.op, a.req.key, a.req.fingerprint)])
            && (!call.phase.Executing? ==> s'.history == s.history && s'.disk.records.Keys == s.disk.records.Keys)
  {
    var first := ReconcileWrites(s.disk, a.listing, s.alive, s.now);
    var d1 := Apply(s.disk, first);
    AdmitReconciles(s, a, first);
    var rest := TakeStretch(d1, a.req, a.newOp, a.pid, s.alive, s.now, a.listing);
    ApplyConcat(s.disk, first, rest.writes);
    TakeLeaves(d1, a, s.alive, s.now);
    var call := s'.calls[a.c];
    if call.phase.Executing? && call.op in s.disk.records {
      ReconcileLeaves(s.disk, a.listing, s.alive, s.now, call.op);
    }
  }

  lemma TakeLeaves(d: Disk, a: Action, alive: set<Pid>, now: int)
    requires a.Admit? && Lists(a.listing, d.records) && OneRecordPerKey(d.records) && a.newOp !in d.records
    requires TakeStretch(d, a.req, a.newOp, a.pid, alive, now, a.listing).after.Stay?
    ensures var st := TakeStretch(d, a.req, a.newOp, a.pid, alive, now, a.listing);
            var d', call := Apply(d, st.writes), st.after.call;
            && d'.lock == Held(LockMeta(call.op, a.pid, now)) && call.pid == a.pid && call.req == a.req
            && (call.phase.Executing? ==>
                  && call.stage == "executing" && call.op in d'.records
                  && d'.records[call.op] == StartedRecord(d.records, call.op, a.req))
            && (!call.phase.Executing? ==> d'.records.Keys == d.records.Keys)
  {
    var verdict := if a.req.deferred then Proceed
                   else CheckIdempotency(d.records, Find(a.listing, d.records, a.req.key), a.req, None);
    var op := if verdict.Resume? then verdict.op else a.newOp;
    AcquireLeaves(d, op, a.pid, alive, now, StaleBound(a.req));
    var taken := AcquireWrites(d, op, a.pid, alive, now, StaleBound(a.req)).value;
    var d2, call := Apply(d, taken), NewCall(d, a, verdict, op);
    TakenRecords(d, a, op, alive, now, d2);
    TakeShape(d, a, alive, now, verdict, op, taken);
    if !a.req.resolver {
      BeginLeaves(d2, call, a.listing);
      ApplyConcat(d, taken, BeginStretch(d2, call, a.listing).writes);
    }
  }

  /** The answer behind the lock, when the resolver lets the request go on: a deferred request is decided there by
      the one record of its key, any other request has been decided before and executes. */
  lemma ResolvedDecides(s: State, c: CallId, listing: seq<OpId>)
    requires Inv(s) && Enabled(s, Resolved(c, true, listing))
    ensures var call, st := s.calls[c], StretchOf(s, Resolved(c, true, listing));
            && (!call.req.deferred || KeyUnused(s.disk.records, call.req.key) ==>
                  st.after.Stay? && st.after.call.phase.Executing? && st.outcome == Waiting)
            && (call.req.deferred ==> forall id :: id in s.disk.records && Matches(s.disk.records[id], call.req.key) ==>
                  DecidedBehind(s.disk.records[id], id, call.req, st))
  {
    var call, d := s.calls[c], s.disk;
    assert CallOk(d.records, call);
    if call.resumed.Some? {
      FindUnique(listing, d.records, call.op);
    }
    forall id | call.req.deferred && id in d.records && Matches(d.records[id], call.req.key)
      ensures DecidedBehind(d.records[id], id, call.req, StretchOf(s, Resolved(c, true, listing)))
    {
      FindUnique(listing, d.records, id);
    }
  }

  predicate DecidedBehind(r: Record, id: OpId, req: Request, st: Stretch) {
    if r.fingerprint != req.fingerprint then st.outcome == Rejected(KeyConflict) && st.after == Leave
    else if r.status == Succeeded then
      st.outcome == Replayed(id) && st.after.Stay? && st.after.call.phase.CheckingReplay?
    else if r.status == Requested || r.status == Running then st.outcome == Rejected(InProgress) && st.after == Leave
    else st.outcome == Rejected(NeedsNewKey) && st.after == Leave
  }

  /** A step that is cut short takes the process that performs it, and all its calls, and no other process. */
  lemma CutTakesItsProcess(s: State, step: Step, s': State)
    requires Next(s, step, s') && step.cut.Some?
    requires step.action.Admit? || step.action.Reconcile? || HasCall(step.action)
    ensures var a := step.action;
            var pid := if a.Admit? || a.Reconcile? then a.pid else s.calls[a.c].pid;
            && s'.alive == s.alive - {pid} && s'.now == s.now
            && (forall c :: c in s'.calls <==> c in s.calls && s.calls[c].pid != pid)
            && forall c :: c in s'.calls ==> s'.calls[c] == s.calls[c]
  {
  }

  /** The clock never goes back, and only a step of the clock moves it. */
  lemma {:induction false} ClockGoesForward(states: seq<State>, steps: seq<Step>, i: nat, j: nat)
    requires Run(states, steps) && i <= j < |states|
    ensures states[i].now <= states[j].now
    ensures (forall k :: i <= k < j ==> !steps[k].action.Tick?) ==> states[i].now == states[j].now
    decreases j - i
  {
    if i < j {
      ClockGoesForward(states, steps, i, j - 1);
      assert Next(states[j - 1], steps[j - 1], states[j]);
    }
  }

  // ---------------------------------------------------------------- a request that goes through

  /** A request with an unused key that finds the lock open is executed and recorded in three steps of its own, and
      the lock is free again. */
  lemma RequestGoesThrough(s: State, a: Action) returns (s1: State, s2: State, s3: State)
    requires Inv(s) && a.Admit? && !a.req.resolver && !a.req.deferred
    requires a.pid in s.alive && a.c !in s.calls && a.newOp !in s.issued && Lists(a.listing, s.disk.records)
    requires s.patience <= if a.req.staleMs == 0 then 60000 else a.req.staleMs
    requires KeyUnused(s.disk.records, a.req.key) && !Shut(s, a.req)
    ensures Next(s, Step(a, None), s1) && Next(s1, Step(Executed(a.c), None), s2)
    ensures Next(s2, Step(Succeed(a.c), None), s3)
    ensures a.newOp in s3.disk.records && s3.disk.records[a.newOp].status == Succeeded
    ensures s3.disk.records[a.newOp].key == a.req.key && s3.disk.records[a.newOp].fingerprint == a.req.fingerprint
    ensures s3.disk.lock.Free? && s3.calls == map[]
    ensures s3.history == s.history + [Started(a.newOp, a.req.key, a.req.fingerprint)] + [Won(a.newOp, a.req.key)]
  {
    AdmissionDecides(s, a);
    s1 := Complete(s, a);
    AdmissionLeaves(s, a, s1);
    NextKeepsInv(s, Step(a, None), s1);
    s2, s3 := CallEnds(s1, a.c);
  }

  /** An executing call can end its execution and then record its success. */
  lemma CallEnds(s: State, c: CallId) returns (s1: State, s2: State)
    requires Inv(s) && c in s.calls && s.calls[c].phase.Executing?
    ensures Next(s, Step(Executed(c), None), s1) && Next(s1, Step(Succeed(c), None), s2)
    ensures var call := s.calls[c];
            && call.op in s.disk.records && call.op in s2.disk.records
            && s2.disk.records == s.disk.records[call.op := s2.disk.records[call.op]]
            && s2.disk.records[call.op]
               == s.disk.records[call.op].(status := Succeeded, stage := "completed", error := "")
            && s2.history == s.history + [Won(call.op, call.req.key)]
    ensures s2.disk.lock.Free? && s2.calls == map[]
  {
    var call := s.calls[c];
    assert CallOk(s.disk.records, call);
    s1 := Complete(s, Executed(c));
    StageLeaves(s, Executed(c), s1);
    NextKeepsInv(s, Step(Executed(c), None), s1);
    s2 := Complete(s1, Succeed(c));
    SuccessLeaves(s1, c, s2);
  }
}
