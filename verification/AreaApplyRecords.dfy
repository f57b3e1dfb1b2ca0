/**
  How many apply records a plan can get.  The scan of prior attempts runs before the coordinator's
  reconcile, so an attempt whose owner died still looks unfinished to it.
 */
module AreaApplyRecords {
  import opened Options
  import opened Coordinator
  import opened CoordinatorSafety
  import opened CoordinatorRuns
  import opened AreaApply
  import opened AreaApplySafety

  /** The scan of prior attempts lets a key through exactly when every earlier apply of this very plan is either
      still unfinished or has succeeded with the same key; records of other kinds and plans do not matter. */
  lemma ScanAllowsExactly(records: map<OpId, Record>, plan: PlanId, key: string)
    ensures PriorAllows(records, plan, key) <==>
              forall id :: id in records ==>
                var r := records[id];
                || r.legacy || r.opType != "property_area_range_apply"
                || "plan_id" !in r.metadata || r.metadata["plan_id"] != plan
                || r.status == Requested || r.status == Running
                || (r.status == Succeeded && r.key == key)
  {
    forall id | id in records
      ensures ApplyPlan(records[id]) == Some(plan) <==>
                && !records[id].legacy && records[id].opType == "property_area_range_apply"
                && "plan_id" in records[id].metadata && records[id].metadata["plan_id"] == plan
    {
    }
  }

  /** The lock keeps a newcomer out: unreadable, or owned by a live process with a fresh heartbeat. */
  predicate Guarded(s: State, req: Request) {
    || s.disk.lock.Bare?
    || (s.disk.lock.Held? && !Stale(s.disk.lock.meta, s.alive, s.now, DEFAULT_STALE_MS)
        && !Stale(s.disk.lock.meta, s.alive, s.now, StaleBound(req)))
  }

  lemma ConflictOnlyReconciles(s: State, a: Action)
    requires a.Admit? && Enabled(s, a) && StretchOf(s, a).outcome == Conflict
    ensures Updates(s.disk, StretchOf(s, a).writes)
  {
    ReconcileKeepsIds(s.disk, a.listing, s.alive, s.now);
    TakeConflict(Apply(s.disk, ReconcileWrites(s.disk, a.listing, s.alive, s.now)), a, s.alive, s.now);
  }

  /** Past the lock an admission never ends in a conflict. */
  lemma BegunIsNoConflict(a: Action, ws: seq<Write>, d2: Disk, call: Call)
    requires a.Admit? && Lists(a.listing, d2.records)
    ensures BeginsWith(a, ws, d2, call).outcome != Conflict
  {
  }

  lemma TakeConflict(d: Disk, a: Action, alive: set<Pid>, now: int)
    requires a.Admit? && Lists(a.listing, d.records)
    requires TakeStretch(d, a.req, a.newOp, a.pid, alive, now, a.listing).outcome == Conflict
    ensures TakeStretch(d, a.req, a.newOp, a.pid, alive, now, a.listing).writes == []
  {
    var verdict := if a.req.deferred then Proceed
                   else CheckIdempotency(d.records, Find(a.listing, d.records, a.req.key), a.req, None);
    var op := if verdict.Resume? then verdict.op else a.newOp;
    var acquired := AcquireWrites(d, op, a.pid, alive, now, StaleBound(a.req));
    if acquired.Some? && !verdict.Replay? && !verdict.Refused() {
      AcquireKeepsIds(d, op, a.pid, alive, now, StaleBound(a.req));
      TakeShape(d, a, alive, now, verdict, op, acquired.value);
      BegunIsNoConflict(a, acquired.value, Apply(d, acquired.value), NewCall(d, a, verdict, op));
    }
  }

  lemma ConflictMakesNothing(s: State, step: Step, s': State)
    requires Next(s, step, s') && step.action.Admit? && StretchOf(s, step.action).outcome == Conflict
    ensures s'.disk.records.Keys == s.disk.records.Keys
  {
    var ws := StretchOf(s, step.action).writes;
    var k := if step.cut.Some? then step.cut.value else |ws|;
    assert ws[..|ws|] == ws;
    ConflictOnlyReconciles(s, step.action);
    UpdatesPrefix(s.disk, ws, k);
    UpdatesKeepIds(s.disk, ws[..k]);
  }

  /** An admission makes a record only for an unused key and an unguarded lock, even if cut short. */
  lemma NewRecordMeans(s: State, step: Step, s': State)
    requires Inv(s) && Next(s, step, s') && Allowed(step) && step.action.Admit?
    requires step.action.newOp in s'.disk.records
    ensures KeyUnused(s.disk.records, step.action.req.key) && !Guarded(s, step.action.req)
  {
    var a := step.action;
    NextKeepsInv(s, step, s');
    RecordOrigin(s, step, s', a.newOp);
    forall id | id in s.disk.records ensures !Matches(s.disk.records[id], a.req.key) {
      StepEvolves(s, step, s', id);
    }
    TurnedAwayExactly(s, a);
    if StretchOf(s, a).outcome == Conflict {
      ConflictMakesNothing(s, step, s');
    }
  }

  /** For an unused key and an unguarded lock the admission makes its record. */
  lemma UnguardedMakes(s: State, a: Action, s': State)
    requires Inv(s) && Next(s, Step(a, None), s') && Allowed(Step(a, None)) && a.Admit? && !a.req.deferred
             && !a.req.resolver
    requires KeyUnused(s.disk.records, a.req.key) && !Guarded(s, a.req)
    ensures a.newOp in s'.disk.records
  {
    TurnedAwayExactly(s, a);
    NextKeepsInv(s, Step(a, None), s');
    assert s'.calls[a.c].op == a.newOp && CallOk(s'.disk.records, s'.calls[a.c]);
  }

  /** Exactly when a plan that already has a record gets another: the new key is unused, the scan saw no
      ended attempt, and the old attempt's lock is gone or stale, that is, its owner died unreconciled. */
  lemma SecondRecordExactly(w: World, a: Action, w': World, id: OpId, plan: PlanId)
    requires LayerInv(w) && Moves(w, Core(Step(a, None)), w') && a.Admit? && RequestPlan(a.req) == Some(plan)
    requires id in w.core.disk.records && ApplyPlan(w.core.disk.records[id]) == Some(plan)
    ensures a.newOp in w'.core.disk.records <==> KeyUnused(w.core.disk.records, a.req.key) && !Guarded(w.core, a.req)
    ensures a.newOp in w'.core.disk.records ==>
              && a.newOp != id && ApplyPlan(w'.core.disk.records[a.newOp]) == Some(plan)
              && id in w'.core.disk.records && ApplyPlan(w'.core.disk.records[id]) == Some(plan)
              && w.core.disk.records[id].Unfinished()
  {
    var s, s' := w.core, w'.core;
    assert a.newOp !in s.disk.records;
    if KeyUnused(s.disk.records, a.req.key) && !Guarded(s, a.req) {
      UnguardedMakes(s, a, s');
    }
    if a.newOp in s'.disk.records {
      NewRecordMeans(s, Step(a, None), s');
      SecondRecordIs(w, a, w', id, plan);
    }
  }

  /** Then the plan has two records, and the first was unfinished to the scan. */
  lemma SecondRecordIs(w: World, a: Action, w': World, id: OpId, plan: PlanId)
    requires LayerInv(w) && Moves(w, Core(Step(a, None)), w') && a.Admit? && RequestPlan(a.req) == Some(plan)
    requires id in w.core.disk.records && ApplyPlan(w.core.disk.records[id]) == Some(plan)
    requires a.newOp in w'.core.disk.records && KeyUnused(w.core.disk.records, a.req.key)
    ensures a.newOp != id && ApplyPlan(w'.core.disk.records[a.newOp]) == Some(plan)
    ensures id in w'.core.disk.records && ApplyPlan(w'.core.disk.records[id]) == Some(plan)
    ensures w.core.disk.records[id].Unfinished()
  {
    RecordOrigin(w.core, Step(a, None), w'.core, a.newOp);
    StepEvolves(w.core, Step(a, None), w'.core, id);
    assert !Matches(w.core.disk.records[id], a.req.key);
  }

  /** An admission for a plan that has a record finds its lock guarded or its key used. */
  ghost predicate Reconciled(w: World, m: Move) {
    m.Core? && m.step.action.Admit? && RequestPlan(m.step.action.req).Some? ==>
      || Guarded(w.core, m.step.action.req)
      || !KeyUnused(w.core.disk.records, m.step.action.req.key)
      || forall id :: id in w.core.disk.records ==> ApplyPlan(w.core.disk.records[id]) != RequestPlan(m.step.action.req)
  }

  /** In a run where no admission meets an unreconciled attempt, a plan has at most one record. */
  lemma {:induction false} PlanHasOneRecord(ws: seq<World>, ms: seq<Move>, i: nat, x: OpId, y: OpId, plan: PlanId)
    requires LayerRun(ws, ms) && i < |ws| && forall k :: 0 <= k < |ms| ==> Reconciled(ws[k], ms[k])
    requires x in ws[i].core.disk.records && ApplyPlan(ws[i].core.disk.records[x]) == Some(plan)
    requires y in ws[i].core.disk.records && ApplyPlan(ws[i].core.disk.records[y]) == Some(plan)
    ensures x == y
  {
    if i > 0 && ms[i - 1].Core? {
      var w, w', step := ws[i - 1], ws[i], ms[i - 1].step;
      assert Moves(w, ms[i - 1], w') && Reconciled(w, ms[i - 1]);
      LayerRunKeepsInv(ws, ms, i - 1);
      PlanRecordOrigin(w, step, w', x, plan);
      PlanRecordOrigin(w, step, w', y, plan);
      if x in w.core.disk.records && y in w.core.disk.records {
        PlanHasOneRecord(ws, ms, i - 1, x, y, plan);
      } else if x != y {
        NewRecordMeans(w.core, step, w'.core);
      }
    } else if i > 0 {
      assert Moves(ws[i - 1], ms[i - 1], ws[i]);
      PlanHasOneRecord(ws, ms, i - 1, x, y, plan);
    }
  }

  lemma PlanRecordOrigin(w: World, step: Step, w': World, id: OpId, plan: PlanId)
    requires LayerInv(w) && Moves(w, Core(step), w')
    requires id in w'.core.disk.records && ApplyPlan(w'.core.disk.records[id]) == Some(plan)
    ensures id in w.core.disk.records ==> ApplyPlan(w.core.disk.records[id]) == Some(plan)
    ensures id !in w.core.disk.records ==>
              step.action.Admit? && id == step.action.newOp && RequestPlan(step.action.req) == Some(plan)
  {
    RecordOrigin(w.core, step, w'.core, id);
    if id in w.core.disk.records {
      StepEvolves(w.core, step, w'.core, id);
    } else {
      NewRecordNeedsTheLock(w.core, step, w'.core, id);
      ApplyCallsAreNotResolving(w);
    }
  }
}
