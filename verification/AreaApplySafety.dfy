/** What Property Area Range Apply guarantees over every run of both layers. */
module AreaApplySafety {
  import opened Options
  import opened Coordinator
  import opened CoordinatorSafety
  import opened CoordinatorRuns
  import opened AreaApply

  /** An operation that has succeeded, or that a live call works on. */
  ghost predicate Claims(w: World, id: OpId, plan: PlanId) {
    && id in w.core.disk.records && ApplyPlan(w.core.disk.records[id]) == Some(plan)
    && (w.core.disk.records[id].status == Succeeded || exists c :: c in w.core.calls && w.core.calls[c].op == id)
  }

  ghost predicate WroteFor(w: World, op: OpId, plan: PlanId, seen: Site) {
    exists i :: 0 <= i < |w.writes| && w.writes[i].op == op && w.writes[i].plan == plan && w.writes[i].after == seen
  }

  ghost predicate JobOk(w: World, c: CallId)
    requires IsApply(w, c)
  {
    var call := w.core.calls[c];
    && c in w.jobs && RequestPlan(call.req).Some? && RequestPlan(call.req).value in w.plans && !call.phase.Resolving?
    && (call.phase.Executing? || call.phase.Verifying? ==>
          && call.op in w.core.disk.records && ApplyPlan(w.core.disk.records[call.op]) == RequestPlan(call.req)
          && (w.jobs[c].BaselineSeen? ==>
                w.site.option.None? && w.jobs[c].read == Site(None, w.plans[RequestPlan(call.req).value].areas))
          && (w.jobs[c].Written? ==>
                && w.site.option == w.jobs[c].seen.option
                && WroteFor(w, call.op, RequestPlan(call.req).value, w.jobs[c].seen)))
    && (call.phase.Verifying? ==>
          && w.jobs[c].Written?
          && Reached(w.jobs[c].seen, RequestPlan(call.req).value, w.plans[RequestPlan(call.req).value], call.op))
  }

  ghost predicate OtherOk(w: World, c: CallId)
    requires c in w.core.calls && !IsApply(w, c)
  {
    w.core.calls[c].op in w.core.disk.records ==> w.core.disk.records[w.core.calls[c].op].opType != APPLY
  }

  ghost predicate WriteOk(w: World, x: Wrote) {
    && x.plan in w.plans && x.before.option.None?
    && x.after == x.before.(option := Some(Activation(x.plan, w.plans[x.plan].snapshot, x.op)))
  }

  ghost predicate SuccessOk(w: World, id: OpId)
    requires id in w.core.disk.records
  {
    var plan := ApplyPlan(w.core.disk.records[id]);
    plan.Some? && w.core.disk.records[id].status == Succeeded ==>
      plan.value in w.plans
      && exists seen :: WroteFor(w, id, plan.value, seen) && Reached(seen, plan.value, w.plans[plan.value], id)
  }

  ghost predicate LayerInv(w: World) {
    && Inv(w.core)
    && (forall c :: c in w.jobs ==> IsApply(w, c))
    && (forall c :: IsApply(w, c) ==> JobOk(w, c))
    && (forall c :: c in w.core.calls && !IsApply(w, c) ==> OtherOk(w, c))
    && (forall i :: 0 <= i < |w.writes| ==> WriteOk(w, w.writes[i]))
    && (forall id :: id in w.core.disk.records ==> SuccessOk(w, id))
    && (forall i, j, plan :: Claims(w, i, plan) && Claims(w, j, plan) ==> i == j)
  }

  // ---------------------------------------------------------------- calls across a step

  lemma BegunCall(a: Action, ws: seq<Write>, d2: Disk, call: Call)
    requires a.Admit? && Lists(a.listing, d2.records) && call.phase.Resolving?
    ensures var after := BeginsWith(a, ws, d2, call).after;
            after.Stay? ==>
              && after.call.req == call.req && after.call.op == call.op && !after.call.phase.Verifying?
              && (!a.req.resolver ==> !after.call.phase.Resolving?)
  {
  }

  /** An admission that resumes has found a record of its own fingerprint. */
  lemma ResumedRecord(d: Disk, a: Action, verdict: Verdict)
    requires a.Admit? && Lists(a.listing, d.records) && verdict.Resume?
    requires verdict == CheckIdempotency(d.records, Find(a.listing, d.records, a.req.key), a.req, None)
    ensures verdict.op in d.records && d.records[verdict.op].fingerprint == a.req.fingerprint && a.req.resume != {}
  {
  }

  lemma TakenCall(d: Disk, a: Action, alive: set<Pid>, now: int)
    requires a.Admit? && Lists(a.listing, d.records)
    ensures var st := TakeStretch(d, a.req, a.newOp, a.pid, alive, now, a.listing);
            st.after.Stay? ==>
              && st.after.call.req == a.req && (!a.req.resolver ==> !st.after.call.phase.Resolving?)
              && !st.after.call.phase.Verifying?
              && (st.after.call.op != a.newOp ==>
                    && st.after.call.op in d.records && d.records[st.after.call.op].fingerprint == a.req.fingerprint
                    && a.req.resume != {})
  {
    var verdict := if a.req.deferred then Proceed
                   else CheckIdempotency(d.records, Find(a.listing, d.records, a.req.key), a.req, None);
    var op := if verdict.Resume? then verdict.op else a.newOp;
    var acquired := AcquireWrites(d, op, a.pid, alive, now, StaleBound(a.req));
    if acquired.Some? && !verdict.Replay? && !verdict.Refused() {
      AcquireKeepsIds(d, op, a.pid, alive, now, StaleBound(a.req));
      TakeShape(d, a, alive, now, verdict, op, acquired.value);
      BegunCall(a, acquired.value, Apply(d, acquired.value), NewCall(d, a, verdict, op));
      if verdict.Resume? { ResumedRecord(d, a, verdict); }
    }
  }

  lemma AdmittedCall(s: State, a: Action)
    requires Inv(s) && a.Admit? && Enabled(s, a)
    ensures var st := StretchOf(s, a);
            st.after.Stay? ==>
              && st.after.call.req == a.req && (!a.req.resolver ==> !st.after.call.phase.Resolving?)
              && !st.after.call.phase.Verifying?
              && (st.after.call.op != a.newOp ==>
                    && st.after.call.op in s.disk.records
                    && s.disk.records[st.after.call.op].fingerprint == a.req.fingerprint
                    && a.req.resume != {})
  {
    var first := ReconcileWrites(s.disk, a.listing, s.alive, s.now);
    ReconcileKeepsIds(s.disk, a.listing, s.alive, s.now);
    ReconcileLegal(s.disk, a.listing, s.alive, s.now, None, s.issued);
    LegalPrefix(s.disk, first, |first|, None, s.issued);
    assert first[..|first|] == first;
    TakenCall(Apply(s.disk, first), a, s.alive, s.now);
  }

  /** A call after a step is a call from before it, or the one the step admitted. */
  lemma CallOrigin(s: State, step: Step, s': State, c: CallId)
    requires Inv(s) && Next(s, step, s') && Allowed(step) && c in s'.calls
    ensures || (c in s.calls && s'.calls[c].op == s.calls[c].op && s'.calls[c].req == s.calls[c].req
                && (s'.calls[c].phase.Resolving? ==> s.calls[c].phase.Resolving?)
                && (s'.calls[c].phase.Executing? ==> s.calls[c].phase.Executing? || s.calls[c].phase.Resolving?)
                && (s'.calls[c].phase.Verifying? ==> s.calls[c].phase.Verifying? || step == Step(Executed(c), None)))
            || (step.action.Admit? && step.cut.None? && step.action.c == c && c !in s.calls
                && StretchOf(s, step.action).after == Stay(s'.calls[c]))
  {
    var a := step.action;
    if c in s.calls && HasCall(a) && a.c == c && step.cut.None? && a.Resolved? && a.continues {
      assert CallOk(s.disk.records, s.calls[c]);
      BeginOk(s.disk, s.calls[c], a.listing, s.issued);
    }
  }

  lemma UpdatesPrefix(d: Disk, ws: seq<Write>, k: nat)
    requires Updates(d, ws) && k <= |ws|
    ensures Updates(d, ws[..k])
  {
    assert forall i :: 0 <= i < k ==> ws[..k][i] == ws[i];
  }

  /** Only an admission and a resolved call make records. */
  lemma OnlyUpdates(s: State, a: Action)
    requires Inv(s) && Enabled(s, a) && !a.Admit? && !a.Resolved? && !(a.Boot? || a.Kill? || a.Tick?)
    ensures Updates(s.disk, StretchOf(s, a).writes)
  {
    if a.Reconcile? {
      ReconcileKeepsIds(s.disk, a.listing, s.alive, s.now);
    }
  }

  /** A record is made only when no call is live: by an admission, or by the one live call itself. */
  lemma NewRecordNeedsTheLock(s: State, step: Step, s': State, id: OpId)
    requires Inv(s) && Next(s, step, s') && Allowed(step) && id in s'.disk.records && id !in s.disk.records
    ensures step.action.Admit? ==> s.calls == map[]
    ensures || step.action.Admit?
            || (step.action.Resolved? && step.action.c in s.calls && s.calls[step.action.c].phase.Resolving?)
  {
    var a := step.action;
    if !(a.Boot? || a.Kill? || a.Tick?) {
      AnyStretchOk(s, a);
      GuardIs(s, a);
      var ws := StretchOf(s, a).writes;
      var issued := if a.Admit? then s.issued + {a.newOp} else s.issued;
      var k := if step.cut.Some? then step.cut.value else |ws|;
      LegalPrefix(s.disk, ws, k, Guard(s, a), issued);
      assert ws[..|ws|] == ws;
      if !a.Admit? && !a.Resolved? {
        OnlyUpdates(s, a);
        UpdatesPrefix(s.disk, ws, k);
        UpdatesKeepIds(s.disk, ws[..k]);
      }
    }
  }

  // ---------------------------------------------------------------- coordinator steps

  lemma WroteForGrows(w: World, w': World, op: OpId, plan: PlanId, seen: Site)
    requires w.writes <= w'.writes && WroteFor(w, op, plan, seen)
    ensures WroteFor(w', op, plan, seen)
  {
    var i :| 0 <= i < |w.writes| && w.writes[i].op == op && w.writes[i].plan == plan && w.writes[i].after == seen;
    assert w'.writes[i] == w.writes[i];
  }

  lemma ContinuedCallKept(w: World, step: Step, w': World, c: CallId)
    requires LayerInv(w) && Moves(w, Core(step), w') && Inv(w'.core) && IsApply(w', c) && c in w.core.calls
    ensures JobOk(w', c)
  {
    var s, s' := w.core, w'.core;
    CallOrigin(s, step, s', c);
    var op := s'.calls[c].op;
    assert IsApply(w, c) && JobOk(w, c);
    if s'.calls[c].phase.Executing? || s'.calls[c].phase.Verifying? {
      StepEvolves(s, step, s', op);
      if w.jobs[c].Written? && WroteFor(w, op, RequestPlan(s.calls[c].req).value, w.jobs[c].seen) {
        WroteForGrows(w, w', op, RequestPlan(s.calls[c].req).value, w.jobs[c].seen);
      }
    }
  }

  lemma AdmittedCallKept(w: World, step: Step, w': World, c: CallId)
    requires LayerInv(w) && Moves(w, Core(step), w') && Inv(w'.core) && IsApply(w', c) && c !in w.core.calls
    ensures JobOk(w', c)
  {
    var s, s' := w.core, w'.core;
    CallOrigin(s, step, s', c);
    AdmittedCall(s, step.action);
    if s'.calls[c].phase.Executing? {
      assert CallOk(s'.disk.records, s'.calls[c]);
      RecordOrigin(s, step, s', s'.calls[c].op);
    }
  }

  lemma ApplyCallKept(w: World, step: Step, w': World, c: CallId)
    requires LayerInv(w) && Moves(w, Core(step), w') && Inv(w'.core) && IsApply(w', c)
    ensures JobOk(w', c)
  {
    if c in w.core.calls { ContinuedCallKept(w, step, w', c); } else { AdmittedCallKept(w, step, w', c); }
  }

  lemma OtherCallKept(w: World, step: Step, w': World, c: CallId)
    requires LayerInv(w) && Moves(w, Core(step), w') && c in w'.core.calls && !IsApply(w', c)
    ensures OtherOk(w', c)
  {
    var s, s', a := w.core, w'.core, step.action;
    CallOrigin(s, step, s', c);
    var op := s'.calls[c].op;
    if c in s.calls {
      assert !IsApply(w, c) && OtherOk(w, c);
    } else {
      AdmittedCall(s, a);
    }
    if op in s'.disk.records {
      if op in s.disk.records {
        StepEvolves(s, step, s', op);
      } else {
        RecordOrigin(s, step, s', op);
        NewRecordNeedsTheLock(s, step, s', op);
      }
    }
  }

  lemma CoreKeepsCalls(w: World, step: Step, w': World)
    requires LayerInv(w) && Moves(w, Core(step), w') && Inv(w'.core)
    ensures forall c :: c in w'.jobs ==> IsApply(w', c)
    ensures forall c :: IsApply(w', c) ==> JobOk(w', c)
    ensures forall c :: c in w'.core.calls && !IsApply(w', c) ==> OtherOk(w', c)
  {
    forall c | IsApply(w', c) ensures JobOk(w', c) {
      ApplyCallKept(w, step, w', c);
    }
    forall c | c in w'.core.calls && !IsApply(w', c) ensures OtherOk(w', c) {
      OtherCallKept(w, step, w', c);
    }
  }

  lemma CoreKeepsSuccesses(w: World, step: Step, w': World, id: OpId)
    requires LayerInv(w) && Moves(w, Core(step), w') && id in w'.core.disk.records
    ensures SuccessOk(w', id)
  {
    var s, s', a := w.core, w'.core, step.action;
    RecordOrigin(s, step, s', id);
    if ApplyPlan(s'.disk.records[id]).Some? && s'.disk.records[id].status == Succeeded {
      if id in s.disk.records && s'.disk.records[id] == s.disk.records[id] {
        assert SuccessOk(w, id);
        var plan := ApplyPlan(s.disk.records[id]).value;
        var seen :| WroteFor(w, id, plan, seen) && Reached(seen, plan, w.plans[plan], id);
        assert WroteFor(w', id, plan, seen);
      } else {
        assert a.Succeed? && id == s.calls[a.c].op;
        StepEvolves(s, step, s', id);
        assert ApplyPlan(s.disk.records[id]) == ApplyPlan(s'.disk.records[id]);
        assert !IsApply(w, a.c) ==> OtherOk(w, a.c);
        assert JobOk(w, a.c);
        assert WroteFor(w', id, ApplyPlan(s'.disk.records[id]).value, w.jobs[a.c].seen);
      }
    }
  }

  lemma ApplyCallsAreNotResolving(w: World)
    requires LayerInv(w)
    ensures forall c :: IsApply(w, c) ==> !w.core.calls[c].phase.Resolving?
  {
    forall c | IsApply(w, c) ensures !w.core.calls[c].phase.Resolving? { assert JobOk(w, c); }
  }

  /** A claim after a step was one before it, or stands on a record the step made. */
  lemma ClaimOrigin(w: World, step: Step, w': World, id: OpId, plan: PlanId)
    requires LayerInv(w) && Moves(w, Core(step), w') && Claims(w', id, plan)
    ensures id in w.core.disk.records ==> Claims(w, id, plan)
    ensures id !in w.core.disk.records ==>
              && step.action.Admit? && id == step.action.newOp && RequestPlan(step.action.req) == Some(plan)
              && w.core.calls == map[]
  {
    var s, s', a := w.core, w'.core, step.action;
    RecordOrigin(s, step, s', id);
    if id in s.disk.records {
      StepEvolves(s, step, s', id);
      if s'.disk.records[id].status == Succeeded {
        if s.disk.records[id].status != Succeeded {
          assert a.Succeed? && s.calls[a.c].op == id;
        }
      } else {
        var c :| c in s'.calls && s'.calls[c].op == id;
        CallOrigin(s, step, s', c);
        if c !in s.calls {
          AdmittedCall(s, a);
        }
      }
    } else {
      NewRecordNeedsTheLock(s, step, s', id);
      ApplyCallsAreNotResolving(w);
    }
  }

  /** A claim made by a step has the plan to itself: the scan found no ended attempt under another key,
      and the key of its own attempt is unused. */
  lemma MadeClaimIsAlone(w: World, step: Step, w': World, made: OpId, prior: OpId, plan: PlanId)
    requires LayerInv(w) && Moves(w, Core(step), w') && Claims(w', made, plan)
    requires made !in w.core.disk.records && prior in w.core.disk.records
    ensures !Claims(w', prior, plan)
  {
    if Claims(w', prior, plan) {
      var s, s' := w.core, w'.core;
      ClaimOrigin(w, step, w', made, plan);
      ClaimOrigin(w, step, w', prior, plan);
      assert s.disk.records[prior].status == Succeeded && s.disk.records[prior].key == step.action.req.key;
      NextKeepsInv(s, step, s');
      RecordOrigin(s, step, s', made);
      StepEvolves(s, step, s', prior);
      assert false;
    }
  }

  lemma CoreKeepsClaims(w: World, step: Step, w': World, i: OpId, j: OpId, plan: PlanId)
    requires LayerInv(w) && Moves(w, Core(step), w') && Claims(w', i, plan) && Claims(w', j, plan)
    ensures i == j
  {
    ClaimOrigin(w, step, w', i, plan);
    ClaimOrigin(w, step, w', j, plan);
    if i !in w.core.disk.records && j in w.core.disk.records {
      MadeClaimIsAlone(w, step, w', i, j, plan);
    } else if i in w.core.disk.records && j !in w.core.disk.records {
      MadeClaimIsAlone(w, step, w', j, i, plan);
    }
  }

  lemma CoreKeepsLayer(w: World, step: Step, w': World)
    requires LayerInv(w) && Moves(w, Core(step), w')
    ensures LayerInv(w')
  {
    NextKeepsInv(w.core, step, w'.core);
    CoreKeepsCalls(w, step, w');
    forall id | id in w'.core.disk.records ensures SuccessOk(w', id) {
      CoreKeepsSuccesses(w, step, w', id);
    }
    forall i, j, plan | Claims(w', i, plan) && Claims(w', j, plan) ensures i == j {
      CoreKeepsClaims(w, step, w', i, j, plan);
    }
    forall i | 0 <= i < |w'.writes| ensures WriteOk(w', w'.writes[i]) {
      assert WriteOk(w, w.writes[i]);
    }
  }

  // ---------------------------------------------------------------- the client's own moves

  lemma ClientKeepsLayer(w: World, m: Move, w': World)
    requires LayerInv(w) && !m.Core? && Moves(w, m, w')
    ensures LayerInv(w')
  {
    assert w'.core == w.core && w'.plans == w.plans && w.writes <= w'.writes;
    forall c | IsApply(w', c) ensures JobOk(w', c) {
      assert JobOk(w, c);
      var op, plan := w.core.calls[c].op, RequestPlan(w.core.calls[c].req).value;
      if c in w.jobs && w.jobs[c].Written? && WroteFor(w, op, plan, w.jobs[c].seen) {
        WroteForGrows(w, w', op, plan, w.jobs[c].seen);
      }
      if m.WriteOption? {
        assert c == m.c;
        assert w'.writes[|w.writes|].after == w'.site;
      }
    }
    forall id | id in w'.core.disk.records ensures SuccessOk(w', id) {
      assert SuccessOk(w, id);
      var plan := ApplyPlan(w.core.disk.records[id]);
      if plan.Some? && w.core.disk.records[id].status == Succeeded {
        var seen :| WroteFor(w, id, plan.value, seen) && Reached(seen, plan.value, w.plans[plan.value], id);
        WroteForGrows(w, w', id, plan.value, seen);
      }
    }
    forall c | c in w'.core.calls && !IsApply(w', c) ensures OtherOk(w', c) {
      assert OtherOk(w, c);
    }
    forall i, j, plan | Claims(w', i, plan) && Claims(w', j, plan) ensures i == j {
      assert Claims(w, i, plan) && Claims(w, j, plan);
    }
    forall i | 0 <= i < |w'.writes| ensures WriteOk(w', w'.writes[i]) {
      if i < |w.writes| {
        assert w'.writes[i] == w.writes[i] && WriteOk(w, w.writes[i]);
      } else {
        assert JobOk(w, m.c);
      }
    }
  }

  // ---------------------------------------------------------------- runs

  ghost predicate LayerRun(ws: seq<World>, ms: seq<Move>) {
    && |ws| == |ms| + 1 && Start(ws[0])
    && forall i :: 0 <= i < |ms| ==> Moves(ws[i], ms[i], ws[i + 1])
  }

  lemma {:induction false} LayerRunKeepsInv(ws: seq<World>, ms: seq<Move>, i: nat)
    requires LayerRun(ws, ms) && i < |ws|
    ensures LayerInv(ws[i])
  {
    if i > 0 {
      LayerRunKeepsInv(ws, ms, i - 1);
      assert Moves(ws[i - 1], ms[i - 1], ws[i]);
      if ms[i - 1].Core? {
        CoreKeepsLayer(ws[i - 1], ms[i - 1].step, ws[i]);
      } else {
        ClientKeepsLayer(ws[i - 1], ms[i - 1], ws[i]);
      }
    }
  }

  /** A plan succeeds at most once, whatever keys, crashes and interleavings; while one of its
      operations has succeeded none is being worked on. */
  lemma PlanSucceedsOnce(ws: seq<World>, ms: seq<Move>, i: nat, a: OpId, b: OpId, plan: PlanId)
    requires LayerRun(ws, ms) && i < |ws|
    requires Claims(ws[i], a, plan) && Claims(ws[i], b, plan)
    ensures a == b
  {
    LayerRunKeepsInv(ws, ms, i);
  }

  /** Behind every success stands one write: it found no activation, it left exactly the one of this
      plan, snapshot and operation, and the property areas read back were the plan's baseline. */
  lemma SuccessLeftTheActivation(ws: seq<World>, ms: seq<Move>, i: nat, id: OpId, plan: PlanId)
    requires LayerRun(ws, ms) && i < |ws| && id in ws[i].core.disk.records
    requires ApplyPlan(ws[i].core.disk.records[id]) == Some(plan) && ws[i].core.disk.records[id].status == Succeeded
    ensures plan in ws[i].plans
    ensures exists k :: 0 <= k < |ws[i].writes| && ws[i].writes[k].op == id && ws[i].writes[k].before.option.None?
                        && ws[i].writes[k].after == Site(Some(Activation(plan, ws[i].plans[plan].snapshot, id)),
                                                         ws[i].plans[plan].areas)
                        && ws[i].writes[k].before.areas == ws[i].plans[plan].areas
  {
    LayerRunKeepsInv(ws, ms, i);
    var w := ws[i];
    assert SuccessOk(w, id);
    var seen :| WroteFor(w, id, plan, seen) && Reached(seen, plan, w.plans[plan], id);
    var k :| 0 <= k < |w.writes| && w.writes[k].op == id && w.writes[k].plan == plan && w.writes[k].after == seen;
    assert WriteOk(w, w.writes[k]);
  }

  /** When a success is recorded the option on the site is still that activation. */
  lemma ActivationStandsAtSuccess(ws: seq<World>, ms: seq<Move>, i: nat, plan: PlanId)
    requires LayerRun(ws, ms) && i < |ms| && ms[i].Core? && ms[i].step.action.Succeed?
    requires IsApply(ws[i], ms[i].step.action.c) && CallPlan(ws[i], ms[i].step.action.c) == Some(plan)
    ensures plan in ws[i].plans
    ensures ws[i + 1].site.option
            == Some(Activation(plan, ws[i].plans[plan].snapshot, ws[i].core.calls[ms[i].step.action.c].op))
  {
    LayerRunKeepsInv(ws, ms, i);
    assert Moves(ws[i], ms[i], ws[i + 1]);
    assert JobOk(ws[i], ms[i].step.action.c);
  }

  /** No apply overwrites an activation. */
  lemma ApplyNeverOverwrites(ws: seq<World>, ms: seq<Move>, i: nat)
    requires LayerRun(ws, ms) && i < |ms| && ms[i].WriteOption?
    ensures ws[i].site.option.None?
  {
    LayerRunKeepsInv(ws, ms, i);
    assert Moves(ws[i], ms[i], ws[i + 1]) && JobOk(ws[i], ms[i].c);
  }
}
