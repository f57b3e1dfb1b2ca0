/**
  The project operation coordinator as a step system over one project's directory.

  The disk holds the operation records and the lock directory.  One synchronous stretch of
  launcher code is a list of file writes.  A stretch either runs to its next `await` or the
  process dies after any number of those writes.
 */
module Coordinator {
  import opened Options

  type OpId = string
  type CallId = nat
  type Pid = nat

  const DEFAULT_STALE_MS: nat := 60000

  // ---------------------------------------------------------------- disk

  datatype Status = Requested | Running | Succeeded | Failed | Interrupted

  datatype Record = Record(legacy: bool, opType: string, key: string, fingerprint: string,
                           metadata: map<string, string>, status: Status, stage: string, error: string)
  {
    /** Requested or running: the states an owner must still be working on. */
    predicate Unfinished() { status == Requested || status == Running }
  }

  datatype LockMeta = LockMeta(op: OpId, pid: Pid, heartbeat: int)

  /** `Bare` is the lock directory without readable metadata. */
  datatype Lock = Free | Bare | Held(meta: LockMeta)

  datatype Disk = Disk(records: map<OpId, Record>, lock: Lock)

  datatype Write = SetLock(lock: Lock) | Put(id: OpId, record: Record)

  function ApplyOne(d: Disk, w: Write): Disk {
    match w
    case SetLock(l) => d.(lock := l)
    case Put(id, r) => d.(records := d.records[id := r])
  }

  function Apply(d: Disk, ws: seq<Write>): Disk
    decreases |ws|
  {
    if ws == [] then d else Apply(ApplyOne(d, ws[0]), ws[1..])
  }

  // ---------------------------------------------------------------- requests

  datatype Request = Request(opType: string, key: string, fingerprint: string, metadata: map<string, string>,
                             resume: set<Status>, resolver: bool, deferred: bool, staleMs: nat)

  /** The option is read as `staleLockHeartbeatMs || 60000`. */
  function StaleBound(req: Request): nat {
    if req.staleMs == 0 then DEFAULT_STALE_MS else req.staleMs
  }

  predicate Stale(meta: LockMeta, alive: set<Pid>, now: int, bound: nat) {
    meta.pid !in alive || now - meta.heartbeat > bound
  }

  function OrElse(s: string, default: string): string {
    if s == "" then default else s
  }

  // ---------------------------------------------------------------- store reads

  /** A directory listing names every record once; its order depends on timestamps. */
  ghost predicate Lists(listing: seq<OpId>, records: map<OpId, Record>) {
    && (forall i :: 0 <= i < |listing| ==> listing[i] in records)
    && (forall id :: id in records ==> id in listing)
    && (forall i, j :: 0 <= i < j < |listing| ==> listing[i] != listing[j])
  }

  predicate Matches(r: Record, key: string) { !r.legacy && r.key == key }

  /** The first listed record that carries the key. */
  function Find(listing: seq<OpId>, records: map<OpId, Record>, key: string): (found: Option<OpId>)
    requires forall i :: 0 <= i < |listing| ==> listing[i] in records
    ensures found.Some? ==> found.value in listing && Matches(records[found.value], key)
    ensures found.None? ==> forall i :: 0 <= i < |listing| ==> !Matches(records[listing[i]], key)
  {
    if listing == [] then None
    else if Matches(records[listing[0]], key) then Some(listing[0])
    else Find(listing[1..], records, key)
  }

  datatype Verdict = Proceed | Replay(op: OpId) | Resume(op: OpId) | KeyConflict | InProgress | NeedsNewKey {
    /** The verdicts that are thrown as errors. */
    predicate Refused() { KeyConflict? || InProgress? || NeedsNewKey? }
  }

  function CheckIdempotency(records: map<OpId, Record>, found: Option<OpId>, req: Request,
                            ignore: Option<OpId>): Verdict
    requires found.Some? ==> found.value in records
  {
    if found.None? || found == ignore then Proceed
    else
      var r := records[found.value];
      if r.fingerprint != req.fingerprint then KeyConflict
      else if r.status == Succeeded then Replay(found.value)
      else if r.Unfinished() then InProgress
      else if r.status in req.resume then Resume(found.value)
      else NeedsNewKey
  }

  // ---------------------------------------------------------------- reconcile and lock

  function Interrupt(r: Record): Record {
    r.(status := Interrupted, stage := OrElse(r.stage, "interrupted"), error := "operation_interrupted")
  }

  function MarkInterrupted(d: Disk, op: OpId): seq<Write> {
    if op in d.records && !d.records[op].legacy && d.records[op].Unfinished()
    then [Put(op, Interrupt(d.records[op]))]
    else []
  }

  /** Interrupts every listed unfinished record except the one the lock names. */
  function Sweep(records: map<OpId, Record>, listing: seq<OpId>, active: Option<OpId>): seq<Write>
    requires forall i :: 0 <= i < |listing| ==> listing[i] in records
  {
    if listing == [] then []
    else
      var r := records[listing[0]];
      (if r.legacy || !r.Unfinished() || active == Some(listing[0]) then [] else [Put(listing[0], Interrupt(r))])
      + Sweep(records, listing[1..], active)
  }

  function BreakStale(d: Disk, alive: set<Pid>, now: int, bound: nat): seq<Write> {
    if d.lock.Held? && Stale(d.lock.meta, alive, now, bound)
    then [SetLock(Free)] + MarkInterrupted(d, d.lock.meta.op)
    else []
  }

  function ActiveOp(l: Lock): Option<OpId> {
    if l.Held? then Some(l.meta.op) else None
  }

  /** A write list of record updates and lock changes leaves the set of record ids alone. */
  predicate Updates(d: Disk, ws: seq<Write>) {
    forall i :: 0 <= i < |ws| && ws[i].Put? ==> ws[i].id in d.records
  }

  lemma {:induction false} UpdatesKeepIds(d: Disk, ws: seq<Write>)
    requires Updates(d, ws)
    ensures Apply(d, ws).records.Keys == d.records.Keys
    decreases |ws|
  {
    if ws != [] {
      assert ApplyOne(d, ws[0]).records.Keys == d.records.Keys;
      forall i | 0 <= i < |ws[1..]| && ws[1..][i].Put?
        ensures ws[1..][i].id in ApplyOne(d, ws[0]).records
      {
        assert ws[1..][i] == ws[i + 1];
      }
      UpdatesKeepIds(ApplyOne(d, ws[0]), ws[1..]);
    }
  }

  function ReconcileWrites(d: Disk, listing: seq<OpId>, alive: set<Pid>, now: int): seq<Write>
    requires forall i :: 0 <= i < |listing| ==> listing[i] in d.records
  {
    var first := BreakStale(d, alive, now, DEFAULT_STALE_MS);
    UpdatesKeepIds(d, first);
    var d1 := Apply(d, first);
    first + Sweep(d1.records, listing, ActiveOp(d1.lock))
  }

  /** `None` is the conflict error; the lock is then left as it was. */
  function AcquireWrites(d: Disk, op: OpId, pid: Pid, alive: set<Pid>, now: int, bound: nat): Option<seq<Write>> {
    var take := [SetLock(Bare), SetLock(Held(LockMeta(op, pid, now)))];
    if d.lock.Free? then Some(take)
    else if d.lock.Held? && Stale(d.lock.meta, alive, now, bound) then Some(BreakStale(d, alive, now, bound) + take)
    else None
  }

  function ReleaseWrites(d: Disk, op: OpId): seq<Write> {
    if d.lock.Held? && d.lock.meta.op == op then [SetLock(Free)] else []
  }

  // ---------------------------------------------------------------- calls

  /** What a call that holds the lock is waiting for. */
  datatype Phase =
    | Resolving            // the post-lock terminal resolver
    | CheckingReplay       // the caller's replay check, after a post-lock replay
    | Executing            // the caller's `execute`
    | Verifying            // the yield after `setStage("verifying")`

  /** `resumed` holds the stage read before the lock when the call resumes a record. */
  datatype Call = Call(pid: Pid, op: OpId, req: Request, resumed: Option<string>, stage: string, phase: Phase)

  datatype After = Leave | Stay(call: Call)

  datatype Outcome = Conflict | Rejected(why: Verdict) | Replayed(op: OpId) | Waiting | Finished

  datatype Stretch = Stretch(writes: seq<Write>, after: After, outcome: Outcome)

  function NewRecord(req: Request): Record {
    Record(false, req.opType, req.key, req.fingerprint, req.metadata, Requested, "validating", "")
  }

  /** The part of a run after the lock and the resolver: second check, then create or resume. */
  function BeginStretch(d: Disk, call: Call, listing: seq<OpId>): Stretch
    requires forall i :: 0 <= i < |listing| ==> listing[i] in d.records
  {
    var ignore := if call.resumed.Some? then Some(call.op) else None;
    var verdict := CheckIdempotency(d.records, Find(listing, d.records, call.req.key), call.req, ignore);
    if verdict.Replay? then Stretch([], Stay(call.(phase := CheckingReplay)), Replayed(verdict.op))
    else if verdict.Refused() then Stretch(ReleaseWrites(d, call.op), Leave, Rejected(verdict))
    else
      // A `Resume` verdict is not looked at here: the code falls through to create or resume.
      if call.resumed.Some? && call.op in d.records then
        var r := d.records[call.op].(status := Running, stage := OrElse(call.resumed.value, "executing"), error := "");
        Stretch([Put(call.op, r), Put(call.op, r.(stage := "executing"))],
                Stay(call.(phase := Executing, stage := "executing")), Waiting)
      else if call.resumed.Some? then
        Stretch(ReleaseWrites(d, call.op), Leave, Finished)
      else
        var r := NewRecord(call.req);
        Stretch([Put(call.op, r), Put(call.op, r.(status := Running, stage := "preparing")),
                 Put(call.op, r.(status := Running, stage := "executing"))],
                Stay(call.(phase := Executing, stage := "executing")), Waiting)
  }

  /** After the reconcile: first check, lock, and the rest when there is no resolver to await. */
  function TakeStretch(d: Disk, req: Request, newOp: OpId, pid: Pid, alive: set<Pid>, now: int,
                       listing: seq<OpId>): Stretch
    requires forall i :: 0 <= i < |listing| ==> listing[i] in d.records
  {
    var verdict := if req.deferred then Proceed
                   else CheckIdempotency(d.records, Find(listing, d.records, req.key), req, None);
    if verdict.Replay? then Stretch([], Leave, Replayed(verdict.op))
    else if verdict.Refused() then Stretch([], Leave, Rejected(verdict))
    else
      var op := if verdict.Resume? then verdict.op else newOp;
      var acquired := AcquireWrites(d, op, pid, alive, now, StaleBound(req));
      if acquired.None? then Stretch([], Leave, Conflict)
      else
        AcquireKeepsIds(d, op, pid, alive, now, StaleBound(req));
        var resumed := if verdict.Resume? && op in d.records then Some(d.records[op].stage) else None;
        var call := Call(pid, op, req, resumed, "validating", Resolving);
        if req.resolver then Stretch(acquired.value, Stay(call), Waiting)
        else
          var rest := BeginStretch(Apply(d, acquired.value), call, listing);
          Stretch(acquired.value + rest.writes, rest.after, rest.outcome)
  }

  /** `runProjectOperation` up to its first `await`. */
  function AdmitStretch(d: Disk, req: Request, newOp: OpId, pid: Pid, alive: set<Pid>, now: int,
                        listing: seq<OpId>): Stretch
    requires forall i :: 0 <= i < |listing| ==> listing[i] in d.records
  {
    var first := ReconcileWrites(d, listing, alive, now);
    ReconcileKeepsIds(d, listing, alive, now);
    var rest := TakeStretch(Apply(d, first), req, newOp, pid, alive, now, listing);
    Stretch(first + rest.writes, rest.after, rest.outcome)
  }

  lemma ReconcileKeepsIds(d: Disk, listing: seq<OpId>, alive: set<Pid>, now: int)
    requires forall i :: 0 <= i < |listing| ==> listing[i] in d.records
    ensures Updates(d, ReconcileWrites(d, listing, alive, now))
    ensures Apply(d, ReconcileWrites(d, listing, alive, now)).records.Keys == d.records.Keys
  {
    var first := BreakStale(d, alive, now, DEFAULT_STALE_MS);
    UpdatesKeepIds(d, first);
    var d1 := Apply(d, first);
    SweepUpdates(d1.records, listing, ActiveOp(d1.lock));
    UpdatesKeepIds(d, ReconcileWrites(d, listing, alive, now));
  }

  lemma {:induction false} SweepUpdates(records: map<OpId, Record>, listing: seq<OpId>, active: Option<OpId>)
    requires forall i :: 0 <= i < |listing| ==> listing[i] in records
    ensures forall i :: 0 <= i < |Sweep(records, listing, active)| ==>
                          Sweep(records, listing, active)[i].Put? && Sweep(records, listing, active)[i].id in listing
  {
    if listing != [] {
      SweepUpdates(records, listing[1..], active);
    }
  }

  lemma AcquireKeepsIds(d: Disk, op: OpId, pid: Pid, alive: set<Pid>, now: int, bound: nat)
    requires AcquireWrites(d, op, pid, alive, now, bound).Some?
    ensures Apply(d, AcquireWrites(d, op, pid, alive, now, bound).value).records.Keys == d.records.Keys
  {
    UpdatesKeepIds(d, AcquireWrites(d, op, pid, alive, now, bound).value);
  }

  /** `setStage` from inside `execute`. */
  function StageStretch(d: Disk, call: Call, stage: string): Stretch
    requires call.op in d.records
  {
    var s := OrElse(stage, OrElse(call.stage, "executing"));
    Stretch([Put(call.op, d.records[call.op].(status := Running, stage := s))], Stay(call.(stage := s)), Waiting)
  }

  /** `execute` resolved. */
  function VerifyStretch(d: Disk, call: Call): Stretch
    requires call.op in d.records
  {
    var s := StageStretch(d, call, "verifying");
    s.(after := Stay(call.(stage := "verifying", phase := Verifying)))
  }

  /** The success record, then the release. */
  function SucceedStretch(d: Disk, call: Call): Stretch
    requires call.op in d.records
  {
    Stretch([Put(call.op, d.records[call.op].(status := Succeeded, stage := "completed", error := ""))]
            + ReleaseWrites(d, call.op), Leave, Finished)
  }

  /** The failure record, when it can be written, then the release. */
  function FailStretch(d: Disk, call: Call, code: string, recorded: bool): Stretch
    requires call.op in d.records
  {
    Stretch((if recorded
             then [Put(call.op,
                       d.records[call.op].(status := Failed, stage := OrElse(call.stage, "failed"), error := code))]
             else [])
            + ReleaseWrites(d, call.op), Leave, Finished)
  }

  function HeartbeatWrites(d: Disk, call: Call, now: int): seq<Write> {
    if d.lock.Held? && d.lock.meta.op == call.op
    then [SetLock(Held(LockMeta(call.op, call.pid, now)))]
    else []
  }

  // ---------------------------------------------------------------- steps

  datatype Event = Started(op: OpId, key: string, fingerprint: string) | Won(op: OpId, key: string)

  /** `patience` bounds the age of a live owner's heartbeat; it is a constant of a run. */
  datatype State = State(disk: Disk, calls: map<CallId, Call>, alive: set<Pid>, now: int, patience: nat,
                         issued: set<OpId>, history: seq<Event>)

  datatype Action =
    | Boot(pid: Pid)
    | Kill(pid: Pid)
    | Tick(ms: nat)
    | Reconcile(pid: Pid, listing: seq<OpId>)
    | Admit(c: CallId, pid: Pid, req: Request, newOp: OpId, listing: seq<OpId>)
    | Resolved(c: CallId, continues: bool, listing: seq<OpId>)
    | ReplayChecked(c: CallId)
    | SetStage(c: CallId, stage: string)
    | Executed(c: CallId)
    | Succeed(c: CallId)
    | Fail(c: CallId, code: string, recorded: bool)
    | Beat(c: CallId)

  /** A step: an action, and, if `cut`, the number of file writes after which its process died. */
  datatype Step = Step(action: Action, cut: Option<nat>)

  function Actor(s: State, a: Action): Pid
    requires a.Boot? || a.Kill? || a.Tick? || a.Reconcile? || a.Admit? || a.c in s.calls
  {
    match a
    case Tick(_) => 0
    case Boot(pid) => pid
    case Kill(pid) => pid
    case Reconcile(pid, _) => pid
    case Admit(_, pid, _, _, _) => pid
    case _ => s.calls[a.c].pid
  }

  predicate FreshLiveLocks(s: State, now: int) {
    forall c <- s.calls :: s.disk.lock.Held? ==> now - s.disk.lock.meta.heartbeat <= s.patience
  }

  ghost predicate Enabled(s: State, a: Action) {
    match a
    case Boot(pid) => pid !in s.alive
    case Kill(pid) => pid in s.alive
    case Tick(ms) => FreshLiveLocks(s, s.now + ms)
    case Reconcile(pid, listing) => pid in s.alive && Lists(listing, s.disk.records)
    case Admit(c, pid, req, newOp, listing) =>
      && pid in s.alive && c !in s.calls && newOp !in s.issued && Lists(listing, s.disk.records)
      && s.patience <= StaleBound(req) && (req.deferred ==> req.resolver)
    case Resolved(c, _, listing) => c in s.calls && s.calls[c].phase.Resolving? && Lists(listing, s.disk.records)
    case ReplayChecked(c) => c in s.calls && s.calls[c].phase.CheckingReplay?
    case SetStage(c, _) => c in s.calls && s.calls[c].phase.Executing? && s.calls[c].op in s.disk.records
    case Executed(c) => c in s.calls && s.calls[c].phase.Executing? && s.calls[c].op in s.disk.records
    case Succeed(c) => c in s.calls && s.calls[c].phase.Verifying? && s.calls[c].op in s.disk.records
    case Fail(c, _, _) =>
      c in s.calls && (s.calls[c].phase.Executing? || s.calls[c].phase.Verifying?) && s.calls[c].op in s.disk.records
    case Beat(c) => c in s.calls && (s.calls[c].phase.Executing? || s.calls[c].phase.Verifying?)
  }

  /** The synchronous stretch an action runs. */
  ghost function StretchOf(s: State, a: Action): Stretch
    requires Enabled(s, a)
  {
    match a
    case Reconcile(_, listing) => Stretch(ReconcileWrites(s.disk, listing, s.alive, s.now), Leave, Finished)
    case Admit(_, pid, req, newOp, listing) => AdmitStretch(s.disk, req, newOp, pid, s.alive, s.now, listing)
    case Resolved(c, continues, listing) =>
      if continues then BeginStretch(s.disk, s.calls[c], listing)
      else Stretch(ReleaseWrites(s.disk, s.calls[c].op), Leave, Finished)
    case ReplayChecked(c) => Stretch(ReleaseWrites(s.disk, s.calls[c].op), Leave, Finished)
    case SetStage(c, stage) => StageStretch(s.disk, s.calls[c], stage)
    case Executed(c) => VerifyStretch(s.disk, s.calls[c])
    case Succeed(c) => SucceedStretch(s.disk, s.calls[c])
    case Fail(c, code, recorded) => FailStretch(s.disk, s.calls[c], code, recorded)
    case Beat(c) => Stretch(HeartbeatWrites(s.disk, s.calls[c], s.now), Stay(s.calls[c]), Waiting)
    case _ => Stretch([], Leave, Finished)
  }

  predicate HasCall(a: Action) { !(a.Boot? || a.Kill? || a.Tick? || a.Reconcile?) }

  function CallsAfter(s: State, a: Action, after: After): map<CallId, Call> {
    if !HasCall(a) then s.calls
    else if after.Stay? then s.calls[a.c := after.call]
    else s.calls - {a.c}
  }

  function Survivors(calls: map<CallId, Call>, pid: Pid): map<CallId, Call> {
    map c | c in calls && calls[c].pid != pid :: calls[c]
  }

  /** `execute` starts when a call enters that phase; a success is logged with its record. */
  function Events(s: State, a: Action, st: Stretch): seq<Event> {
    if a.Succeed? && a.c in s.calls then [Won(s.calls[a.c].op, s.calls[a.c].req.key)]
    else if (a.Admit? || a.Resolved?) && st.after.Stay? && st.after.call.phase.Executing?
    then [Started(st.after.call.op, st.after.call.req.key, st.after.call.req.fingerprint)]
    else []
  }

  /** A stretch that runs to its end. */
  ghost function Complete(s: State, a: Action): State
    requires Enabled(s, a)
  {
    var st := StretchOf(s, a);
    match a
    case Boot(pid) => s.(alive := s.alive + {pid})
    case Kill(pid) => s.(alive := s.alive - {pid}, calls := Survivors(s.calls, pid))
    case Tick(ms) => s.(now := s.now + ms)
    case _ => s.(disk := Apply(s.disk, st.writes), calls := CallsAfter(s, a, st.after),
                 issued := if a.Admit? then s.issued + {a.newOp} else s.issued,
                 history := s.history + Events(s, a, st))
  }

  /** A stretch whose process dies after `k` of its writes.  A success already on disk is logged. */
  ghost function CutShort(s: State, a: Action, k: nat): State
    requires Enabled(s, a) && k <= |StretchOf(s, a).writes|
  {
    var pid := Actor(s, a);
    s.(disk := Apply(s.disk, StretchOf(s, a).writes[..k]), calls := Survivors(s.calls, pid), alive := s.alive - {pid},
       issued := if a.Admit? then s.issued + {a.newOp} else s.issued,
       history := s.history + if a.Succeed? && k > 0 then Events(s, a, StretchOf(s, a)) else [])
  }

  ghost predicate Next(s: State, step: Step, s': State) {
    && Enabled(s, step.action)
    && match step.cut
       case None => s' == Complete(s, step.action)
       case Some(k) =>
         k <= |StretchOf(s, step.action).writes| && !step.action.Tick? && s' == CutShort(s, step.action, k)
  }

  ghost predicate Init(s: State) {
    && s.calls == map[] && s.history == [] && s.patience <= DEFAULT_STALE_MS
    && s.disk.records.Keys <= s.issued && (s.disk.lock.Held? ==> s.disk.lock.meta.op in s.issued)
    && OneRecordPerKey(s.disk.records)
  }

  ghost predicate OneRecordPerKey(records: map<OpId, Record>) {
    forall i, j :: (i in records && j in records && !records[i].legacy && !records[j].legacy
                    && records[i].key == records[j].key) ==> i == j
  }
}
