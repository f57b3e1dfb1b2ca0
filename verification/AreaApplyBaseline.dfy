/** No apply writes to the site before it has read the plan's baseline there. */
module AreaApplyBaseline {
  import opened Options
  import opened Coordinator
  import opened CoordinatorSafety
  import opened CoordinatorRuns
  import opened AreaApply
  import opened AreaApplySafety
  import opened CoordinatorEffects

  /** At `k` this very call read the site and found it as the plan had it: no activation, the same areas. */
  ghost predicate ReadAt(ws: seq<World>, ms: seq<Move>, k: nat, c: CallId, call: Call)
    requires |ws| == |ms| + 1
  {
    && k < |ms| && ms[k] == ReadBaseline(c) && c in ws[k].core.calls
    && ws[k].core.calls[c].op == call.op && ws[k].core.calls[c].req == call.req
    && RequestPlan(call.req).Some? && RequestPlan(call.req).value in ws[k].plans
    && ws[k].site == Site(None, ws[k].plans[RequestPlan(call.req).value].areas)
  }

  /** A call that stands behind its baseline check has made it. */
  lemma {:induction false} SeenBefore(ws: seq<World>, ms: seq<Move>, i: nat, c: CallId) returns (k: nat)
    requires LayerRun(ws, ms) && i < |ws| && c in ws[i].jobs && ws[i].jobs[c].BaselineSeen?
    ensures c in ws[i].core.calls && k < i && ReadAt(ws, ms, k, c, ws[i].core.calls[c])
  {
    LayerRunKeepsInv(ws, ms, i);
    assert IsApply(ws[i], c);
    var m := ms[i - 1];
    assert Moves(ws[i - 1], m, ws[i]);
    LayerRunKeepsInv(ws, ms, i - 1);
    if m == ReadBaseline(c) {
      assert JobOk(ws[i - 1], c);
      k := i - 1;
    } else {
      k := SeenBefore(ws, ms, i - 1, c);
      if m.Core? {
        CallOrigin(ws[i - 1].core, m.step, ws[i].core, c);
      }
    }
  }

  /** A write step comes after such a read of its own call. */
  lemma WriteComesAfterItsRead(ws: seq<World>, ms: seq<Move>, i: nat) returns (k: nat)
    requires LayerRun(ws, ms) && i < |ms| && ms[i].WriteOption?
    ensures ms[i].c in ws[i].core.calls && k < i && ReadAt(ws, ms, k, ms[i].c, ws[i].core.calls[ms[i].c])
  {
    assert Moves(ws[i], ms[i], ws[i + 1]);
    k := SeenBefore(ws, ms, i, ms[i].c);
  }

  /** Every entry of the write log was left by a call that had read its baseline: a call that never read it
      leaves none. */
  lemma {:induction false} LoggedWriteHadItsBaseline(ws: seq<World>, ms: seq<Move>, j: nat, n: nat)
    returns (k: nat, i: nat, c: CallId)
    requires LayerRun(ws, ms) && j < |ws| && n < |ws[j].writes|
    ensures k < i < j && ms[i].WriteOption? && ms[i].c == c && c in ws[i].core.calls
    ensures ReadAt(ws, ms, k, c, ws[i].core.calls[c])
    ensures ws[j].writes[n].op == ws[i].core.calls[c].op
    ensures Some(ws[j].writes[n].plan) == RequestPlan(ws[i].core.calls[c].req)
  {
    assert Moves(ws[j - 1], ms[j - 1], ws[j]);
    if n < |ws[j - 1].writes| {
      k, i, c := LoggedWriteHadItsBaseline(ws, ms, j - 1, n);
      assert ws[j].writes[n] == ws[j - 1].writes[n];
    } else {
      i, c := j - 1, ms[j - 1].c;
      k := WriteComesAfterItsRead(ws, ms, i);
    }
  }

  // ---------------------------------------------------------------- an apply that nothing disturbs

  /** A call that finds the site at its plan's baseline gets through in four moves: the read, the write, the end of
      the execution and the success.  The site then has the activation of this plan, snapshot and operation over the
      same areas, the record is succeeded, and the lock is free. */
  lemma ApplyGoesThrough(w: World, c: CallId) returns (w1: World, w2: World, w3: World, w4: World)
    requires LayerInv(w) && IsApply(w, c) && w.core.calls[c].phase.Executing? && w.jobs[c].Begun?
    requires w.site == Site(None, w.plans[CallPlan(w, c).value].areas)
    ensures Moves(w, ReadBaseline(c), w1) && Moves(w1, WriteOption(c, true), w2)
    ensures Moves(w2, Core(Step(Executed(c), None)), w3) && Moves(w3, Core(Step(Succeed(c), None)), w4)
    ensures var op, plan := w.core.calls[c].op, CallPlan(w, c).value;
            && w4.site == Site(Some(Activation(plan, w.plans[plan].snapshot, op)), w.plans[plan].areas)
            && op in w4.core.disk.records && w4.core.disk.records[op].status == Succeeded
            && w4.core.disk.lock.Free? && w4.core.calls == map[]
  {
    assert JobOk(w, c) && CallOk(w.core.disk.records, w.core.calls[c]);
    w1, w2 := ReadsAndWrites(w, c, CallPlan(w, c).value, w.core.calls[c].op);
    w3, w4 := Ends(w2, c);
  }

  lemma ReadsAndWrites(w: World, c: CallId, plan: PlanId, op: OpId) returns (w1: World, w2: World)
    requires Working(w, c) && w.jobs[c].Begun? && plan == CallPlan(w, c).value && op == w.core.calls[c].op
    requires w.site == Site(None, w.plans[plan].areas)
    ensures Moves(w, ReadBaseline(c), w1) && Moves(w1, WriteOption(c, true), w2)
    ensures w2.core == w.core && w2.plans == w.plans && c in w2.jobs && w2.jobs[c] == Written(w2.site)
    ensures w2.site == Site(Some(Activation(plan, w.plans[plan].snapshot, op)), w.plans[plan].areas)
  {
    var after := Site(Some(Activation(plan, w.plans[plan].snapshot, op)), w.site.areas);
    w1 := w.(jobs := w.jobs[c := BaselineSeen(w.site)]);
    w2 := w1.(site := after, jobs := w1.jobs[c := Written(after)],
              writes := w1.writes + [Wrote(op, plan, w.site, after)]);
  }

  /** A written apply whose read-back is as planned is executed and recorded. */
  lemma Ends(w: World, c: CallId) returns (w1: World, w2: World)
    requires Inv(w.core) && IsApply(w, c) && w.core.calls[c].phase.Executing? && c in w.jobs && w.jobs[c].Written?
    requires w.core.calls[c].op in w.core.disk.records && CallPlan(w, c).Some? && CallPlan(w, c).value in w.plans
    requires Reached(w.jobs[c].seen, CallPlan(w, c).value, w.plans[CallPlan(w, c).value], w.core.calls[c].op)
    ensures Moves(w, Core(Step(Executed(c), None)), w1) && Moves(w1, Core(Step(Succeed(c), None)), w2)
    ensures w2.site == w.site && w2.core.disk.lock.Free? && w2.core.calls == map[]
    ensures var op := w.core.calls[c].op;
            op in w2.core.disk.records && w2.core.disk.records[op].status == Succeeded
  {
    var s1 := Complete(w.core, Executed(c));
    StageLeaves(w.core, Executed(c), s1);
    NextKeepsInv(w.core, Step(Executed(c), None), s1);
    w1 := w.(core := s1, jobs := JobsAfter(w, s1));
    var s2 := Complete(s1, Succeed(c));
    SuccessLeaves(s1, c, s2);
    w2 := w1.(core := s2, jobs := JobsAfter(w1, s2));
  }

  /** A request whose scan finds nothing of its plan, and whose lock is open, is let in and begun. */
  lemma ApplyIsAdmitted(w: World, a: Action, plan: PlanId) returns (w1: World)
    requires LayerInv(w) && a.Admit? && a.req.opType == APPLY && RequestPlan(a.req) == Some(plan) && plan in w.plans
    requires !a.req.resolver && !a.req.deferred && a.req.resume == {} && a.c !in w.jobs
    requires forall id :: id in w.core.disk.records ==>
               && ApplyPlan(w.core.disk.records[id]) != Some(plan)
               && (w.core.disk.records[id].fingerprint == a.req.fingerprint ==>
                     w.core.disk.records[id].opType == a.req.opType)
    requires a.pid in w.core.alive && a.c !in w.core.calls && a.newOp !in w.core.issued
    requires Lists(a.listing, w.core.disk.records)
    requires w.core.patience <= if a.req.staleMs == 0 then 60000 else a.req.staleMs
    requires KeyUnused(w.core.disk.records, a.req.key) && !Shut(w.core, a.req)
    ensures Moves(w, Core(Step(a, None)), w1) && IsApply(w1, a.c) && w1.jobs[a.c].Begun?
    ensures w1.core.calls[a.c].phase.Executing? && w1.core.calls[a.c].op == a.newOp && CallPlan(w1, a.c) == Some(plan)
    ensures w1.site == w.site && w1.plans == w.plans && w1.writes == w.writes
  {
    AdmissionDecides(w.core, a);
    var s1 := Complete(w.core, a);
    AdmissionLeaves(w.core, a, s1);
    w1 := w.(core := s1, jobs := JobsAfter(w, s1));
  }

  /** Between the read and the write an editor can still change the areas: the activation then stands over areas
      nobody approved.  The read-back notices it, and the execution can no longer be reported as done. */
  lemma DriftIsNoticedAfterTheWrite(w: World, c: CallId, areas: seq<Area>) returns (w1: World, w2: World)
    requires LayerInv(w) && IsApply(w, c) && w.core.calls[c].phase.Executing? && w.jobs[c].BaselineSeen?
    requires areas != w.plans[CallPlan(w, c).value].areas
    ensures Moves(w, EditAreas(areas), w1) && Moves(w1, WriteOption(c, true), w2)
    ensures w2.site.option.Some? && w2.site.areas == areas && |w2.writes| == |w.writes| + 1
    ensures w2.writes[|w.writes|].before == Site(None, areas)
    ensures forall w3 :: !Moves(w2, Core(Step(Executed(c), None)), w3)
  {
    var op, plan := w.core.calls[c].op, CallPlan(w, c).value;
    assert JobOk(w, c);
    var after := Site(Some(Activation(plan, w.plans[plan].snapshot, op)), areas);
    w1 := w.(site := w.site.(areas := areas));
    w2 := w1.(site := after, jobs := w1.jobs[c := Written(after)],
              writes := w1.writes + [Wrote(op, plan, w1.site, after)]);
    assert !Reached(after, plan, w.plans[plan], op);
    assert !ClientAllows(w2, Executed(c));
  }
}
