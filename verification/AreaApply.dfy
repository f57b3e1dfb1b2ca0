/**
  Property Area Range Apply: a client protocol of the coordinator.

  Its steps are coordinator steps with a guard (the scan of prior attempts), plus the reads and the
  add-only-if-absent write of the activation option.  The guarantee needs both layers.
 */
module AreaApply {
  import opened Options
  import opened Coordinator
  import opened CoordinatorSafety
  import opened CoordinatorRuns

  type PlanId = string

  const APPLY := "property_area_range_apply"
  const PLAN_KEY := "plan_id"

  datatype Area = Area(postId: nat, size: Option<string>)

  datatype Plan = Plan(snapshot: string, areas: seq<Area>)

  datatype Activation = Activation(plan: PlanId, snapshot: string, op: OpId)

  /** What a native read returns: the option and the normalised areas of the published properties. */
  datatype Site = Site(option: Option<Activation>, areas: seq<Area>)

  /** `Lost` is a write whose reply never came; the write may have taken effect. */
  datatype Job = Begun | BaselineSeen(read: Site) | Written(seen: Site) | Lost

  datatype Wrote = Wrote(op: OpId, plan: PlanId, before: Site, after: Site)

  datatype World = World(core: State, site: Site, plans: map<PlanId, Plan>, jobs: map<CallId, Job>, writes: seq<Wrote>)

  function ApplyPlan(r: Record): Option<PlanId> {
    if !r.legacy && r.opType == APPLY && PLAN_KEY in r.metadata then Some(r.metadata[PLAN_KEY]) else None
  }

  function RequestPlan(req: Request): Option<PlanId> {
    if req.opType == APPLY && PLAN_KEY in req.metadata then Some(req.metadata[PLAN_KEY]) else None
  }

  /** The scan of prior attempts, made before the coordinator is entered. */
  ghost predicate PriorAllows(records: map<OpId, Record>, plan: PlanId, key: string) {
    forall id :: id in records && ApplyPlan(records[id]) == Some(plan) ==>
                   && records[id].status != Failed && records[id].status != Interrupted
                   && (records[id].status == Succeeded ==> records[id].key == key)
  }

  /** The after-state check of a read-back. */
  predicate Reached(seen: Site, plan: PlanId, p: Plan, op: OpId) {
    seen.option == Some(Activation(plan, p.snapshot, op)) && seen.areas == p.areas
  }

  datatype Move =
    | Core(step: Step)                  // a coordinator step
    | ReadBaseline(c: CallId)           // the read before the write, when it passes the baseline check
    | WriteOption(c: CallId, replied: bool)
    | EditAreas(areas: seq<Area>)       // editors may change property data at any time
    | OtherOperation(c: CallId, option: Option<Activation>)  // another executing operation, for example a restore

  ghost predicate IsApply(w: World, c: CallId) {
    c in w.core.calls && w.core.calls[c].req.opType == APPLY
  }

  /** Guards this client adds to coordinator steps. */
  ghost predicate ClientAllows(w: World, a: Action) {
    match a
    case Admit(_, _, req, _, _) =>
      // A fingerprint covers the operation type, so one fingerprint never serves two types.
      && (forall id :: id in w.core.disk.records && w.core.disk.records[id].fingerprint == req.fingerprint ==>
                         w.core.disk.records[id].opType == req.opType)
      && (req.opType == APPLY ==>
            && !req.resolver && !req.deferred && req.resume == {}
            && RequestPlan(req).Some? && RequestPlan(req).value in w.plans
            && PriorAllows(w.core.disk.records, RequestPlan(req).value, req.key))
    case Executed(c) =>
      IsApply(w, c) ==>
        c in w.jobs && w.jobs[c].Written? && CallPlan(w, c).Some? && CallPlan(w, c).value in w.plans
        && Reached(w.jobs[c].seen, CallPlan(w, c).value, w.plans[CallPlan(w, c).value], w.core.calls[c].op)
    case _ => true
  }

  ghost function CallPlan(w: World, c: CallId): Option<PlanId>
    requires c in w.core.calls
  {
    RequestPlan(w.core.calls[c].req)
  }

  ghost function JobsAfter(w: World, core': State): map<CallId, Job> {
    map c | c in core'.calls && core'.calls[c].req.opType == APPLY :: if c in w.jobs then w.jobs[c] else Begun
  }

  ghost predicate Working(w: World, c: CallId) {
    IsApply(w, c) && w.core.calls[c].phase.Executing? && c in w.jobs && CallPlan(w, c).Some?
      && CallPlan(w, c).value in w.plans
  }

  ghost predicate Moves(w: World, m: Move, w': World) {
    match m
    case Core(step) =>
      && Next(w.core, step, w'.core) && Allowed(step) && ClientAllows(w, step.action)
      && w' == w.(core := w'.core, jobs := JobsAfter(w, w'.core))
    case ReadBaseline(c) =>
      && Working(w, c) && w.jobs[c].Begun?
      && w.site.option.None? && w.site.areas == w.plans[CallPlan(w, c).value].areas
      && w' == w.(jobs := w.jobs[c := BaselineSeen(w.site)])
    case WriteOption(c, replied) =>
      && Working(w, c) && w.jobs[c].BaselineSeen?
      && var plan, op := CallPlan(w, c).value, w.core.calls[c].op;
         var after := if w.site.option.Some? then w.site
                      else w.site.(option := Some(Activation(plan, w.plans[plan].snapshot, op)));
         w' == w.(site := after, jobs := w.jobs[c := if replied then Written(after) else Lost],
                  writes := w.writes + [Wrote(op, plan, w.site, after)])
    case EditAreas(areas) => w' == w.(site := w.site.(areas := areas))
    case OtherOperation(c, option) =>
      && c in w.core.calls && w.core.calls[c].phase.Executing? && !IsApply(w, c)
      && w' == w.(site := w.site.(option := option))
  }

  ghost predicate Start(w: World) {
    && Init(w.core) && w.jobs == map[] && w.writes == []
    && forall id :: id in w.core.disk.records ==> w.core.disk.records[id].opType != APPLY
  }

  // ---------------------------------------------------------------- what coordinator steps do to records

  lemma {:induction false} LastPut(d: Disk, ws: seq<Write>, id: OpId)
    requires id in Apply(d, ws).records
    ensures || (id in d.records && Apply(d, ws).records[id] == d.records[id])
            || exists i :: 0 <= i < |ws| && ws[i] == Put(id, Apply(d, ws).records[id])
    decreases |ws|
  {
    if ws != [] {
      LastPut(ApplyOne(d, ws[0]), ws[1..], id);
      if exists i :: 0 <= i < |ws[1..]| && ws[1..][i] == Put(id, Apply(d, ws).records[id]) {
        var i :| 0 <= i < |ws[1..]| && ws[1..][i] == Put(id, Apply(d, ws).records[id]);
        assert ws[i + 1] == Put(id, Apply(d, ws).records[id]);
      }
    }
  }

  /** A record as a start writes it: the request's own, requested or running, at one of its three first stages. */
  predicate NewlyWritten(req: Request, r: Record) {
    && SameIdentity(NewRecord(req), r) && r.error == ""
    && ((r.status == Requested && r.stage == "validating")
        || (r.status == Running && (r.stage == "preparing" || r.stage == "executing")))
  }

  /** Only the success step writes a success; only a begin writes a new record, made from its request. */
  ghost predicate PutForm(s: State, a: Action, w: Write) {
    w.Put? ==>
      && (w.record.status == Succeeded ==> a.Succeed? && a.c in s.calls && w.id == s.calls[a.c].op)
      && (w.id !in s.disk.records ==>
            && NewlyWritten(BeginRequest(s, a), w.record)
            && w.id == (if a.Admit? then a.newOp else if a.Resolved? && a.c in s.calls then s.calls[a.c].op else w.id))
  }

  function BeginRequest(s: State, a: Action): Request {
    if a.Admit? then a.req
    else if HasCall(a) && a.c in s.calls then s.calls[a.c].req
    else Request("", "", "", map[], {}, false, false, 0)
  }

  lemma BeginPuts(d: Disk, call: Call, listing: seq<OpId>, i: nat)
    requires Lists(listing, d.records) && i < |BeginStretch(d, call, listing).writes|
    requires BeginStretch(d, call, listing).writes[i].Put?
    ensures var w := BeginStretch(d, call, listing).writes[i];
            w.id == call.op && w.record.status in {Requested, Running}
            && (call.op !in d.records ==> NewlyWritten(call.req, w.record))
  {
  }

  lemma ReconcilePuts(d: Disk, listing: seq<OpId>, alive: set<Pid>, now: int, i: nat)
    requires Lists(listing, d.records)
    requires i < |ReconcileWrites(d, listing, alive, now)| && ReconcileWrites(d, listing, alive, now)[i].Put?
    ensures var w := ReconcileWrites(d, listing, alive, now)[i]; w.id in d.records && w.record.status == Interrupted
  {
    ReconcileKeepsIds(d, listing, alive, now);
    var first := BreakStale(d, alive, now, DEFAULT_STALE_MS);
    UpdatesKeepIds(d, first);
    var d1 := Apply(d, first);
    SweepInterrupts(d1.records, listing, ActiveOp(d1.lock));
  }

  lemma {:induction false} SweepInterrupts(records: map<OpId, Record>, listing: seq<OpId>, active: Option<OpId>)
    requires forall i :: 0 <= i < |listing| ==> listing[i] in records
    ensures forall i :: 0 <= i < |Sweep(records, listing, active)| ==>
                          Sweep(records, listing, active)[i].Put?
                            && Sweep(records, listing, active)[i].record.status == Interrupted
  {
    if listing != [] {
      SweepInterrupts(records, listing[1..], active);
    }
  }

  lemma TakePutForms(d: Disk, a: Action, alive: set<Pid>, now: int, i: nat)
    requires a.Admit? && Lists(a.listing, d.records)
    requires var ws := TakeStretch(d, a.req, a.newOp, a.pid, alive, now, a.listing).writes; i < |ws| && ws[i].Put?
    ensures var w := TakeStretch(d, a.req, a.newOp, a.pid, alive, now, a.listing).writes[i];
            w.record.status in {Requested, Running, Interrupted}
            && (w.id !in d.records ==> w.id == a.newOp && NewlyWritten(a.req, w.record))
  {
    var verdict, op, taken := TakeWrote(d, a, alive, now);
    ChosenOp(d, a, verdict, op);
    TakenPuts(d, a, alive, now, op, taken, NewCall(d, a, verdict, op), i);
  }

  lemma ChosenOp(d: Disk, a: Action, verdict: Verdict, op: OpId)
    requires a.Admit? && Lists(a.listing, d.records) && Chose(d, a, verdict, op)
    ensures op in d.records || op == a.newOp
  {
  }

  lemma TakenPuts(d: Disk, a: Action, alive: set<Pid>, now: int, op: OpId, taken: seq<Write>, call: Call, i: nat)
    requires a.Admit? && Lists(a.listing, d.records) && call.op == op && call.req == a.req
    requires AcquireWrites(d, op, a.pid, alive, now, StaleBound(a.req)) == Some(taken)
             && Apply(d, taken).records.Keys == d.records.Keys
    requires i < |BeginsWith(a, taken, Apply(d, taken), call).writes|
             && BeginsWith(a, taken, Apply(d, taken), call).writes[i].Put?
    ensures var w := BeginsWith(a, taken, Apply(d, taken), call).writes[i];
            w.record.status in {Requested, Running, Interrupted}
            && (w.id !in d.records ==> w.id == op && NewlyWritten(a.req, w.record))
  {
    if i >= |taken| {
      BeginPuts(Apply(d, taken), call, a.listing, i - |taken|);
    }
  }

  /** The record updates of an admission. */
  lemma AdmitPutForms(d: Disk, a: Action, alive: set<Pid>, now: int, i: nat)
    requires a.Admit? && Lists(a.listing, d.records)
    requires var ws := AdmitStretch(d, a.req, a.newOp, a.pid, alive, now, a.listing).writes; i < |ws| && ws[i].Put?
    ensures var w := AdmitStretch(d, a.req, a.newOp, a.pid, alive, now, a.listing).writes[i];
            w.record.status in {Requested, Running, Interrupted}
            && (w.id !in d.records ==> w.id == a.newOp && NewlyWritten(a.req, w.record))
  {
    var first := ReconcileWrites(d, a.listing, alive, now);
    ReconcileKeepsIds(d, a.listing, alive, now);
    if i < |first| {
      ReconcilePuts(d, a.listing, alive, now, i);
    } else {
      TakePutForms(Apply(d, first), a, alive, now, i - |first|);
    }
  }

  lemma PutForms(s: State, a: Action, i: nat)
    requires Enabled(s, a) && i < |StretchOf(s, a).writes|
    ensures PutForm(s, a, StretchOf(s, a).writes[i])
  {
    if StretchOf(s, a).writes[i].Put? {
      if a.Reconcile? {
        ReconcilePuts(s.disk, a.listing, s.alive, s.now, i);
      } else if a.Admit? {
        AdmitPutForms(s.disk, a, s.alive, s.now, i);
      } else if a.Resolved? && a.continues {
        BeginPuts(s.disk, s.calls[a.c], a.listing, i);
      }
    }
  }

  /** Every record after a step is an old one, or a write of the step put it there. */
  lemma RecordOrigin(s: State, step: Step, s': State, id: OpId)
    requires Inv(s) && Next(s, step, s') && Allowed(step) && id in s'.disk.records
    ensures || (id in s.disk.records && s'.disk.records[id] == s.disk.records[id])
            || PutForm(s, step.action, Put(id, s'.disk.records[id]))
  {
    var a := step.action;
    if !(a.Boot? || a.Kill? || a.Tick?) {
      var ws := StretchOf(s, a).writes;
      var k := if step.cut.Some? then step.cut.value else |ws|;
      assert ws[..|ws|] == ws;
      LastPut(s.disk, ws[..k], id);
      if i: nat :| i < k && ws[..k][i] == Put(id, s'.disk.records[id]) {
        PutForms(s, a, i);
      }
    }
  }

  /** A record that appears is the request's own and at one of the first stages, whether the step ran to its end or its
      process died on the way. */
  lemma NewRecordsAreStarts(s: State, step: Step, s': State, id: OpId)
    requires Inv(s) && Next(s, step, s') && Allowed(step) && id in s'.disk.records && id !in s.disk.records
    ensures var r, req := s'.disk.records[id], BeginRequest(s, step.action);
            && !r.legacy && r.opType == req.opType && r.key == req.key && r.fingerprint == req.fingerprint
            && r.metadata == req.metadata && r.error == ""
            && ((r.status == Requested && r.stage == "validating")
                || (r.status == Running && (r.stage == "preparing" || r.stage == "executing")))
  {
    RecordOrigin(s, step, s', id);
  }

  /** A success is logged in the very step that writes it, also when the process dies right after that write. */
  lemma SuccessIsLogged(s: State, step: Step, s': State, id: OpId)
    requires Inv(s) && Next(s, step, s') && Allowed(step)
    requires id in s'.disk.records && s'.disk.records[id].status == Succeeded
    requires id in s.disk.records ==> s.disk.records[id].status != Succeeded
    ensures step.action.Succeed? && step.action.c in s.calls && s.calls[step.action.c].op == id
    ensures s'.history == s.history + [Won(id, s.calls[step.action.c].req.key)]
  {
    RecordOrigin(s, step, s', id);
  }
}
