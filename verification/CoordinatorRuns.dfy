/** The coordinator's guarantees, stated over whole runs. */
module CoordinatorRuns {
  import opened Options
  import opened Coordinator
  import opened CoordinatorSafety

  /** A run: any interleaving of steps of any number of processes, with crashes after any write. */
  ghost predicate Run(states: seq<State>, steps: seq<Step>) {
    && |states| == |steps| + 1
    && Init(states[0])
    && forall i :: 0 <= i < |steps| ==> Next(states[i], steps[i], states[i + 1]) && Allowed(steps[i])
  }

  lemma {:induction false} RunKeepsInv(states: seq<State>, steps: seq<Step>, i: nat)
    requires Run(states, steps) && i < |states|
    ensures Inv(states[i])
  {
    if i > 0 {
      RunKeepsInv(states, steps, i - 1);
      NextKeepsInv(states[i - 1], steps[i - 1], states[i]);
    }
  }

  /** At most one call is past the lock, its process is alive, and the lock names it. */
  lemma MutualExclusion(states: seq<State>, steps: seq<Step>, i: nat, c: CallId, c': CallId)
    requires Run(states, steps) && i < |states| && c in states[i].calls && c' in states[i].calls
    ensures c == c'
    ensures states[i].disk.lock.Held? && states[i].disk.lock.meta.op == states[i].calls[c].op
            && states[i].disk.lock.meta.pid == states[i].calls[c].pid && states[i].calls[c].pid in states[i].alive
    ensures states[i].calls[c].phase.Executing? ==>
              states[i].calls[c].op in states[i].disk.records
              && states[i].disk.records[states[i].calls[c].op].status == Running
  {
    RunKeepsInv(states, steps, i);
    assert HoldsLock(states[i], states[i].calls[c]) && CallOk(states[i].disk.records, states[i].calls[c]);
  }

  /** A completed reconcile step leaves no unfinished record but the one the lock names. */
  lemma ReconcileLeavesOnlyTheOwner(states: seq<State>, steps: seq<Step>, i: nat, id: OpId)
    requires Run(states, steps) && i < |steps| && steps[i].action.Reconcile? && steps[i].cut.None?
    requires id in states[i + 1].disk.records
    requires !states[i + 1].disk.records[id].legacy && states[i + 1].disk.records[id].Unfinished()
    ensures states[i + 1].disk.lock.Held? && states[i + 1].disk.lock.meta.op == id
  {
    assert Next(states[i], steps[i], states[i + 1]);
    AfterReconcile(states[i].disk, steps[i].action.listing, states[i].alive, states[i].now, id);
  }

  /** A key has one record; its executions share that record and one fingerprint; it wins at most
      once, and nothing is executed for it afterwards. */
  lemma KeyExecutesOneOperation(states: seq<State>, steps: seq<Step>, i: nat, j: nat, k: nat)
    requires Run(states, steps) && i < |states|
    requires j < |states[i].history| && k < |states[i].history|
    requires states[i].history[j].key == states[i].history[k].key
    ensures OneRecordPerKey(states[i].disk.records)
    ensures states[i].history[j].op == states[i].history[k].op
    ensures states[i].history[j].Started? && states[i].history[k].Started? ==>
              states[i].history[j].fingerprint == states[i].history[k].fingerprint
    ensures states[i].history[j].Won? ==> k <= j
  {
    RunKeepsInv(states, steps, i);
    var h := states[i].history;
    assert Matches(states[i].disk.records[h[j].op], h[j].key) && Matches(states[i].disk.records[h[k].op], h[k].key);
  }

  lemma StepEvolves(s: State, step: Step, s': State, id: OpId)
    requires Inv(s) && Next(s, step, s') && Allowed(step) && id in s.disk.records
    ensures id in s'.disk.records && Evolves(s.disk.records[id], s'.disk.records[id])
  {
    var a := step.action;
    if !(a.Boot? || a.Kill? || a.Tick?) {
      AnyStretchOk(s, a);
      var ws := StretchOf(s, a).writes;
      var issued := if a.Admit? then s.issued + {a.newOp} else s.issued;
      var k := if step.cut.Some? then step.cut.value else |ws|;
      LegalPrefix(s.disk, ws, k, Guard(s, a), issued);
      assert ws[..|ws|] == ws;
    }
  }

  /** Over any stretch of a run a record keeps its id, key, fingerprint and metadata, and a
      succeeded or legacy record does not change at all. */
  lemma {:induction false} RecordsEvolve(states: seq<State>, steps: seq<Step>, i: nat, j: nat, id: OpId)
    requires Run(states, steps) && i <= j < |states| && id in states[i].disk.records
    ensures id in states[j].disk.records
    ensures var r, r' := states[i].disk.records[id], states[j].disk.records[id];
            SameIdentity(r, r') && (r.status == Succeeded || r.legacy ==> r' == r)
    decreases j - i
  {
    if i < j {
      RecordsEvolve(states, steps, i, j - 1, id);
      RunKeepsInv(states, steps, j - 1);
      StepEvolves(states[j - 1], steps[j - 1], states[j], id);
    }
  }

  // ---------------------------------------------------------------- replay, conflict, resume

  lemma {:induction false} ReconcileSpares(d: Disk, listing: seq<OpId>, alive: set<Pid>, now: int, id: OpId)
    requires Lists(listing, d.records) && id in d.records && !d.records[id].Unfinished()
    ensures var d' := Apply(d, ReconcileWrites(d, listing, alive, now));
            id in d'.records && d'.records[id] == d.records[id]
  {
    var first := BreakStale(d, alive, now, DEFAULT_STALE_MS);
    BreakStaleLegal(d, alive, now, DEFAULT_STALE_MS, {});
    var d1 := Apply(d, first);
    SweepSpares(d1, d1.records, listing, ActiveOp(d1.lock), id);
    ApplyConcat(d, first, Sweep(d1.records, listing, ActiveOp(d1.lock)));
  }

  lemma {:induction false} SweepSpares(d: Disk, records: map<OpId, Record>, listing: seq<OpId>, active: Option<OpId>,
                                       id: OpId)
    requires forall i :: 0 <= i < |listing| ==> listing[i] in records
    requires id in records && !records[id].Unfinished()
    ensures forall i :: 0 <= i < |Sweep(records, listing, active)| ==>
                          Sweep(records, listing, active)[i].Put? && Sweep(records, listing, active)[i].id != id
    ensures (id in Apply(d, Sweep(records, listing, active)).records) == (id in d.records)
    ensures id in d.records ==> Apply(d, Sweep(records, listing, active)).records[id] == d.records[id]
    decreases |listing|
  {
    if listing != [] {
      SweepSpares(d, records, listing[1..], active, id);
      Untouched(d, Sweep(records, listing, active), id);
    }
  }

  ghost predicate ReuseRules(r: Record, id: OpId, req: Request, st: Stretch, spent: seq<Write>) {
    var same := r.fingerprint == req.fingerprint;
    && (!same ==> st.outcome == Rejected(KeyConflict))
    && (same && r.status == Succeeded ==> st.outcome == Replayed(id))
    && (same && r.status != Succeeded && r.status !in req.resume ==> st.outcome == Rejected(NeedsNewKey))
    && (!same || r.status == Succeeded || r.status !in req.resume ==> st.after == Leave && st.writes == spent)
    && (st.after.Stay? ==> st.after.call.op == id)
  }

  /** Reusing the key of a finished record: with the same request a success is replayed, with another
      request it is refused; a failed or interrupted record runs again only if the caller resumes
      that status.  In none of these cases is a new record made. */
  lemma ReuseOfAFinishedKey(s: State, a: Action, id: OpId)
    requires Inv(s) && a.Admit? && Enabled(s, a) && !a.req.deferred
    requires id in s.disk.records && Matches(s.disk.records[id], a.req.key) && !s.disk.records[id].Unfinished()
    ensures ReuseRules(s.disk.records[id], id, a.req, StretchOf(s, a),
                       ReconcileWrites(s.disk, a.listing, s.alive, s.now))
  {
    var first := ReconcileWrites(s.disk, a.listing, s.alive, s.now);
    ReconcileSpares(s.disk, a.listing, s.alive, s.now, id);
    ReconcileKeepsIds(s.disk, a.listing, s.alive, s.now);
    ReconcileLegal(s.disk, a.listing, s.alive, s.now, None, s.issued);
    LegalPrefix(s.disk, first, |first|, None, s.issued);
    assert first[..|first|] == first;
    TakeReuse(Apply(s.disk, first), a, s.alive, s.now, id);
  }

  lemma TakeReuse(d: Disk, a: Action, alive: set<Pid>, now: int, id: OpId)
    requires a.Admit? && Lists(a.listing, d.records) && OneRecordPerKey(d.records) && !a.req.deferred
    requires id in d.records && Matches(d.records[id], a.req.key) && !d.records[id].Unfinished()
    ensures ReuseRules(d.records[id], id, a.req, TakeStretch(d, a.req, a.newOp, a.pid, alive, now, a.listing), [])
  {
    FindUnique(a.listing, d.records, id);
    var verdict := CheckIdempotency(d.records, Some(id), a.req, None);
    var acquired := AcquireWrites(d, id, a.pid, alive, now, StaleBound(a.req));
    if verdict.Resume? && acquired.Some? {
      AcquireKeepsIds(d, id, a.pid, alive, now, StaleBound(a.req));
      TakeShape(d, a, alive, now, verdict, id, acquired.value);
    }
  }

  ghost predicate Resumes(s: State, a: Action, id: OpId)
    requires id in s.disk.records
  {
    || (a.Admit? && a.req.key == s.disk.records[id].key && a.req.fingerprint == s.disk.records[id].fingerprint
        && s.disk.records[id].status in a.req.resume)
    || (a.Resolved? && a.c in s.calls && s.calls[a.c].op == id && s.calls[a.c].req.key == s.disk.records[id].key
        && s.calls[a.c].req.fingerprint == s.disk.records[id].fingerprint
        && s.disk.records[id].status in s.calls[a.c].req.resume)
  }

  /** A failed or interrupted record changes only in a step of a call that resumes that status with
      the record's own key and fingerprint. */
  lemma OnlyResumeReopens(s: State, step: Step, s': State, id: OpId)
    requires Inv(s) && Next(s, step, s') && Allowed(step)
    requires id in s.disk.records && s.disk.records[id].status in {Failed, Interrupted}
    requires id !in s'.disk.records || s'.disk.records[id] != s.disk.records[id]
    ensures Resumes(s, step.action, id)
  {
    var a := step.action;
    if !(a.Boot? || a.Kill? || a.Tick?) {
      var ws := StretchOf(s, a).writes;
      var k := if step.cut.Some? then step.cut.value else |ws|;
      assert ws[..|ws|] == ws;
      if forall i :: 0 <= i < k && ws[i].Put? ==> ws[i].id != id {
        Untouched(s.disk, ws[..k], id);
      } else {
        var i :| 0 <= i < k && ws[i].Put? && ws[i].id == id;
        WriterResumes(s, a, id, i);
      }
    }
  }

  lemma WriterResumes(s: State, a: Action, id: OpId, i: nat)
    requires Inv(s) && Enabled(s, a) && Allowed(Step(a, None))
    requires id in s.disk.records && s.disk.records[id].status in {Failed, Interrupted}
    requires i < |StretchOf(s, a).writes| && StretchOf(s, a).writes[i].Put? && StretchOf(s, a).writes[i].id == id
    ensures Resumes(s, a, id)
  {
    if a.Reconcile? {
      ReconcileAvoids(s.disk, a.listing, s.alive, s.now, id);
    } else if a.Admit? {
      AdmitPuts(s.disk, a, s.alive, s.now, id, i);
    } else {
      assert CallOk(s.disk.records, s.calls[a.c]);
    }
  }

  lemma ReconcileAvoids(d: Disk, listing: seq<OpId>, alive: set<Pid>, now: int, id: OpId)
    requires Lists(listing, d.records) && id in d.records && !d.records[id].Unfinished()
    ensures var ws := ReconcileWrites(d, listing, alive, now);
            forall i :: 0 <= i < |ws| && ws[i].Put? ==> ws[i].id != id
  {
    BreakStaleLegal(d, alive, now, DEFAULT_STALE_MS, {});
    var d1 := Apply(d, BreakStale(d, alive, now, DEFAULT_STALE_MS));
    SweepSpares(d1, d1.records, listing, ActiveOp(d1.lock), id);
  }

  /** The record updates of an admission after its reconcile: unfinished records, or its own. */
  lemma LatePuts(d1: Disk, a: Action, alive: set<Pid>, now: int, op: OpId, call: Call)
    requires a.Admit? && Lists(a.listing, d1.records) && call.op == op
    ensures var acquired := AcquireWrites(d1, op, a.pid, alive, now, StaleBound(a.req));
            acquired.Some? ==>
              && Apply(d1, acquired.value).records.Keys == d1.records.Keys
              && var ws := BeginsWith(a, acquired.value, Apply(d1, acquired.value), call).writes;
                 forall j :: 0 <= j < |ws| && ws[j].Put? ==>
                   ws[j].id == op || (ws[j].id in d1.records && d1.records[ws[j].id].Unfinished())
  {
    var acquired := AcquireWrites(d1, op, a.pid, alive, now, StaleBound(a.req));
    if acquired.Some? {
      AcquireKeepsIds(d1, op, a.pid, alive, now, StaleBound(a.req));
      var ws2, d2 := acquired.value, Apply(d1, acquired.value);
      assert forall j :: 0 <= j < |ws2| && ws2[j].Put? ==>
                           ws2[j].id in d1.records && d1.records[ws2[j].id].Unfinished();
      var rest := BeginStretch(d2, call, a.listing);
      assert forall j :: 0 <= j < |rest.writes| && rest.writes[j].Put? ==> rest.writes[j].id == op;
    }
  }

  /** An admission writes to a failed or interrupted record only on a resume verdict for it. */
  lemma AdmitPuts(d: Disk, a: Action, alive: set<Pid>, now: int, id: OpId, i: nat)
    requires a.Admit? && Lists(a.listing, d.records) && a.newOp !in d.records
    requires id in d.records && d.records[id].status in {Failed, Interrupted}
    requires var ws := AdmitStretch(d, a.req, a.newOp, a.pid, alive, now, a.listing).writes;
             i < |ws| && ws[i].Put? && ws[i].id == id
    ensures a.req.key == d.records[id].key && a.req.fingerprint == d.records[id].fingerprint
            && d.records[id].status in a.req.resume
  {
    var first := ReconcileWrites(d, a.listing, alive, now);
    ReconcileAvoids(d, a.listing, alive, now, id);
    ReconcileSpares(d, a.listing, alive, now, id);
    ReconcileKeepsIds(d, a.listing, alive, now);
    assert i >= |first|;
    TakePuts(Apply(d, first), a, alive, now, id, i - |first|);
  }

  lemma TakePuts(d: Disk, a: Action, alive: set<Pid>, now: int, id: OpId, i: nat)
    requires a.Admit? && Lists(a.listing, d.records) && a.newOp !in d.records
    requires id in d.records && d.records[id].status in {Failed, Interrupted}
    requires var ws := TakeStretch(d, a.req, a.newOp, a.pid, alive, now, a.listing).writes;
             i < |ws| && ws[i].Put? && ws[i].id == id
    ensures a.req.key == d.records[id].key && a.req.fingerprint == d.records[id].fingerprint
            && d.records[id].status in a.req.resume
  {
    var verdict, op, taken := TakeWrote(d, a, alive, now);
    LatePuts(d, a, alive, now, op, NewCall(d, a, verdict, op));
    assert id == op;
    ResumeVerdict(d, a, verdict, op);
  }

  lemma ResumeVerdict(d: Disk, a: Action, verdict: Verdict, op: OpId)
    requires a.Admit? && Lists(a.listing, d.records) && Chose(d, a, verdict, op) && a.newOp !in d.records
             && op in d.records
    ensures a.req.key == d.records[op].key && a.req.fingerprint == d.records[op].fingerprint
            && d.records[op].status in a.req.resume
  {
  }

  // ---------------------------------------------------------------- who is let in

  /** A request with an unused key is turned away exactly when the lock directory has no readable
      metadata, or its owner is alive and fresh under both bounds in use. */
  lemma TurnedAwayExactly(s: State, a: Action)
    requires Inv(s) && a.Admit? && Enabled(s, a) && Supported(a.req) && KeyUnused(s.disk.records, a.req.key)
    ensures StretchOf(s, a).outcome == Conflict <==>
              || s.disk.lock.Bare?
              || (s.disk.lock.Held? && !Stale(s.disk.lock.meta, s.alive, s.now, DEFAULT_STALE_MS)
                  && !Stale(s.disk.lock.meta, s.alive, s.now, StaleBound(a.req)))
    ensures StretchOf(s, a).outcome != Conflict ==>
              StretchOf(s, a).after.Stay? && StretchOf(s, a).after.call.op == a.newOp
              && (!a.req.resolver ==> StretchOf(s, a).after.call.phase.Executing?)
  {
    assert a.newOp !in s.disk.records;
    LetIn(s.disk, a, s.alive, s.now, s.issued);
  }

  lemma LetIn(d: Disk, a: Action, alive: set<Pid>, now: int, issued: set<OpId>)
    requires a.Admit? && Lists(a.listing, d.records) && a.newOp !in d.records && DiskOk(d, issued)
    requires KeyUnused(d.records, a.req.key)
    ensures var st := AdmitStretch(d, a.req, a.newOp, a.pid, alive, now, a.listing);
            && (st.outcome == Conflict <==>
                  || d.lock.Bare?
                  || (d.lock.Held? && !Stale(d.lock.meta, alive, now, DEFAULT_STALE_MS)
                      && !Stale(d.lock.meta, alive, now, StaleBound(a.req))))
            && (st.outcome != Conflict ==>
                  st.after.Stay? && st.after.call.op == a.newOp && (!a.req.resolver ==> st.after.call.phase.Executing?))
  {
    var first := ReconcileWrites(d, a.listing, alive, now);
    ReconcileLegal(d, a.listing, alive, now, None, issued);
    LegalPrefix(d, first, |first|, None, issued);
    assert first[..|first|] == first;
    StillUnused(d, Apply(d, first), None, a.req.key);
    TakenIn(Apply(d, first), a, alive, now, issued);
  }

  lemma TakenIn(d: Disk, a: Action, alive: set<Pid>, now: int, issued: set<OpId>)
    requires a.Admit? && Lists(a.listing, d.records) && a.newOp !in d.records && DiskOk(d, issued)
    requires KeyUnused(d.records, a.req.key)
    ensures var st := TakeStretch(d, a.req, a.newOp, a.pid, alive, now, a.listing);
            && (st.outcome == Conflict <==>
                  d.lock.Bare? || (d.lock.Held? && !Stale(d.lock.meta, alive, now, StaleBound(a.req))))
            && (st.outcome != Conflict ==>
                  st.after.Stay? && st.after.call.op == a.newOp && (!a.req.resolver ==> st.after.call.phase.Executing?))
  {
    assert Chose(d, a, Proceed, a.newOp);
    var acquired := AcquireWrites(d, a.newOp, a.pid, alive, now, StaleBound(a.req));
    if acquired.Some? {
      var d2 := Apply(d, acquired.value);
      AcquireLegal(d, a.newOp, a.pid, alive, now, StaleBound(a.req), issued);
      LegalPrefix(d, acquired.value, |acquired.value|, None, issued);
      assert acquired.value[..|acquired.value|] == acquired.value;
      StillUnused(d, d2, None, a.req.key);
      TakeShape(d, a, alive, now, Proceed, a.newOp, acquired.value);
      assert Find(a.listing, d2.records, a.req.key).None?;
    }
  }

  lemma StillUnused(d: Disk, d': Disk, guard: Option<OpId>, key: string)
    requires DiskStep(d, d', guard) && d'.records.Keys == d.records.Keys && KeyUnused(d.records, key)
    ensures KeyUnused(d'.records, key)
  {
    forall id | id in d'.records ensures !Matches(d'.records[id], key) {
      assert Evolves(d.records[id], d'.records[id]);
    }
  }

  lemma BareWrites(s: State, a: Action, k: nat)
    requires (a.Reconcile? || a.Admit?) && Enabled(s, a) && s.disk.lock.Bare? && k <= |StretchOf(s, a).writes|
    ensures Apply(s.disk, StretchOf(s, a).writes[..k]).lock.Bare?
    ensures StretchOf(s, a).after == Leave
  {
    BareStretch(s, a);
    PutsKeepLock(s.disk, StretchOf(s, a).writes[..k]);
  }

  lemma BareStep(s: State, step: Step, s': State)
    requires Next(s, step, s') && Allowed(step) && s.disk.lock.Bare? && s.calls == map[]
    ensures s'.disk.lock.Bare? && s'.calls == map[] && s'.history == s.history
  {
    var a := step.action;
    if a.Reconcile? || a.Admit? {
      var ws := StretchOf(s, a).writes;
      assert ws[..|ws|] == ws;
      BareWrites(s, a, if step.cut.Some? then step.cut.value else |ws|);
    }
  }

  /** A crash between making the lock directory and writing its metadata closes the project for good:
      from then on nothing is executed. */
  lemma {:induction false} BareLockIsForever(states: seq<State>, steps: seq<Step>, i: nat, j: nat)
    requires Run(states, steps) && i <= j < |states| && states[i].disk.lock.Bare?
    ensures states[j].disk.lock.Bare? && states[j].calls == map[] && states[j].history == states[i].history
    decreases j - i
  {
    if i < j {
      BareLockIsForever(states, steps, i, j - 1);
      assert Next(states[j - 1], steps[j - 1], states[j]) && Allowed(steps[j - 1]);
      BareStep(states[j - 1], steps[j - 1], states[j]);
    } else {
      RunKeepsInv(states, steps, i);
      NobodyHoldsABareLock(states[i]);
    }
  }

  lemma NobodyHoldsABareLock(s: State)
    requires Inv(s) && s.disk.lock.Bare?
    ensures s.calls == map[]
  {
    assert forall c :: c in s.calls ==> HoldsLock(s, s.calls[c]);
  }

  lemma {:induction false} PutsKeepLock(d: Disk, ws: seq<Write>)
    requires forall i :: 0 <= i < |ws| ==> ws[i].Put?
    ensures Apply(d, ws).lock == d.lock
    decreases |ws|
  {
    if ws != [] {
      PutsKeepLock(ApplyOne(d, ws[0]), ws[1..]);
    }
  }

  lemma BareStretch(s: State, a: Action)
    requires s.disk.lock.Bare? && (a.Reconcile? || a.Admit?) && Enabled(s, a)
    ensures StretchOf(s, a).after.Leave?
    ensures forall i :: 0 <= i < |StretchOf(s, a).writes| ==> StretchOf(s, a).writes[i].Put?
  {
    var d1 := Apply(s.disk, []);
    SweepUpdates(d1.records, a.listing, None);
    var ws := ReconcileWrites(s.disk, a.listing, s.alive, s.now);
    assert ws == [] + Sweep(d1.records, a.listing, None);
    PutsKeepLock(s.disk, ws);
  }

  // ---------------------------------------------------------------- the unsupported combination

  ghost predicate Resumable(records: map<OpId, Record>, req: Request, id: OpId) {
    && id in records && Matches(records[id], req.key) && records[id].fingerprint == req.fingerprint
    && records[id].status in req.resume && records[id].status in {Failed, Interrupted}
  }

  /** With the first check deferred, the second check's resume verdict is ignored.  A second record
      for the key is then made exactly when the caller resumes the status of the record it has. */
  lemma DeferredResumeDuplicates(d: Disk, call: Call, listing: seq<OpId>)
    requires Lists(listing, d.records) && OneRecordPerKey(d.records)
    requires call.phase.Resolving? && call.req.deferred && call.resumed.None? && call.op !in d.records
    ensures OneRecordPerKey(Apply(d, BeginStretch(d, call, listing).writes).records)
            <==> !exists id :: Resumable(d.records, call.req, id)
  {
    var st := BeginStretch(d, call, listing);
    var found := Find(listing, d.records, call.req.key);
    var d' := Apply(d, st.writes);
    if exists id :: Resumable(d.records, call.req, id) {
      var id :| Resumable(d.records, call.req, id);
      FindUnique(listing, d.records, id);
      NewRecordWritten(d, call, st.writes);
      assert d'.records[id] == d.records[id] && Matches(d'.records[call.op], call.req.key);
    } else if found.Some? {
      assert !Resumable(d.records, call.req, found.value);
      if st.writes != [] {
        OneWrite(d, st.writes[0], None, {});
        assert st.writes == [SetLock(Free)];
      }
    } else {
      FindNone(listing, d.records, call.req.key);
      NewRecordWritten(d, call, st.writes);
    }
  }

  lemma NewRecordWritten(d: Disk, call: Call, ws: seq<Write>)
    requires ws == [Put(call.op, NewRecord(call.req)),
                    Put(call.op, NewRecord(call.req).(status := Running, stage := "preparing")),
                    Put(call.op, NewRecord(call.req).(status := Running, stage := "executing"))]
    ensures Apply(d, ws).records == d.records[call.op := NewRecord(call.req).(status := Running, stage := "executing")]
  {
    assert ws == [ws[0]] + [ws[1], ws[2]];
    ApplyConcat(d, [ws[0]], [ws[1], ws[2]]);
    OneWrite(d, ws[0], None, {});
    TwoWrites(ApplyOne(d, ws[0]), ws[1], ws[2], None, {});
  }

  /** Such a disk exists: one failed record, and a deferred request that resumes failures. */
  lemma DeferredResumeExample() returns (d: Disk, call: Call, listing: seq<OpId>)
    ensures Lists(listing, d.records) && OneRecordPerKey(d.records) && call.req.deferred && call.req.resume == {Failed}
    ensures call.phase.Resolving? && call.resumed.None? && call.op !in d.records
    ensures !OneRecordPerKey(Apply(d, BeginStretch(d, call, listing).writes).records)
  {
    var req := Request("structural_restore_execute", "key-0000000000001", "f", map[], {Failed}, true, true, 0);
    var r := NewRecord(req).(status := Failed);
    d := Disk(map["op-1" := r], Held(LockMeta("op-2", 1, 0)));
    call := Call(1, "op-2", req, None, "validating", Resolving);
    listing := ["op-1"];
    assert Resumable(d.records, req, "op-1");
    DeferredResumeDuplicates(d, call, listing);
  }
}
