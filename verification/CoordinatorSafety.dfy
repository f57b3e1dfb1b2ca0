/** Safety of the coordinator over every run with crashes, restarts and stale takeover. */
module CoordinatorSafety {
  import opened Options
  import opened Coordinator

  // ---------------------------------------------------------------- invariant

  ghost predicate KeyUnused(records: map<OpId, Record>, key: string) {
    forall id :: id in records ==> !Matches(records[id], key)
  }

  ghost predicate Bound(records: map<OpId, Record>, call: Call) {
    && call.op in records
    && Matches(records[call.op], call.req.key)
    && records[call.op].fingerprint == call.req.fingerprint
  }

  /** The options the exclusion argument covers: a deferred check is never combined with resuming. */
  predicate Supported(req: Request) { !(req.deferred && req.resume != {}) }

  ghost predicate CallOk(records: map<OpId, Record>, call: Call) {
    && Supported(call.req)
    && (call.phase.Resolving? && call.resumed.Some? ==>
          && Bound(records, call) && !call.req.deferred
          && records[call.op].status in call.req.resume
          && records[call.op].status in {Failed, Interrupted})
    && (call.phase.Resolving? && call.resumed.None? ==>
          && call.op !in records
          && (!call.req.deferred ==> KeyUnused(records, call.req.key)))
    && (call.phase.Executing? || call.phase.Verifying? ==>
          Bound(records, call) && records[call.op].status == Running)
  }

  ghost predicate HoldsLock(s: State, call: Call) {
    && s.disk.lock.Held? && s.disk.lock.meta.op == call.op && s.disk.lock.meta.pid == call.pid
    && call.pid in s.alive && s.now - s.disk.lock.meta.heartbeat <= s.patience
  }

  ghost predicate HistoryOk(records: map<OpId, Record>, history: seq<Event>) {
    && (forall i {:trigger history[i]} :: 0 <= i < |history| ==>
          && history[i].op in records && Matches(records[history[i].op], history[i].key)
          && (history[i].Started? ==> records[history[i].op].fingerprint == history[i].fingerprint)
          && (history[i].Won? ==> records[history[i].op].status == Succeeded))
    && (forall i, j :: 0 <= i < j < |history| && history[i].Won? ==> history[i].op != history[j].op)
  }

  ghost predicate Inv(s: State) {
    && s.patience <= DEFAULT_STALE_MS
    && OneRecordPerKey(s.disk.records)
    && s.disk.records.Keys <= s.issued
    && (forall c :: c in s.calls ==> s.calls[c].op in s.issued)
    && (forall c :: c in s.calls ==> HoldsLock(s, s.calls[c]))
    && (forall c :: c in s.calls ==> CallOk(s.disk.records, s.calls[c]))
    && (forall c, c' :: c in s.calls && c' in s.calls ==> c == c')
    && HistoryOk(s.disk.records, s.history)
  }

  // ---------------------------------------------------------------- legal writes

  predicate SameIdentity(r: Record, r': Record) {
    r' == r.(status := r'.status, stage := r'.stage, error := r'.error)
  }

  /** How a record may change: never once it has succeeded, and never in its identity. */
  predicate Evolves(r: Record, r': Record) {
    r' == r || (!r.legacy && r.status != Succeeded && SameIdentity(r, r'))
  }

  /** `guard` names the operation of a live lock owner other than the writer. */
  ghost predicate LegalWrite(d: Disk, w: Write, guard: Option<OpId>, issued: set<OpId>) {
    match w
    case SetLock(_) => guard.None?
    case Put(id, r) =>
      && guard != Some(id)
      && if id in d.records then Evolves(d.records[id], r)
         else guard.None? && !r.legacy && id in issued && KeyUnused(d.records, r.key)
  }

  ghost predicate Legal(d: Disk, ws: seq<Write>, guard: Option<OpId>, issued: set<OpId>)
    decreases |ws|
  {
    ws == [] || (LegalWrite(d, ws[0], guard, issued) && Legal(ApplyOne(d, ws[0]), ws[1..], guard, issued))
  }

  ghost predicate DiskOk(d: Disk, issued: set<OpId>) {
    OneRecordPerKey(d.records) && d.records.Keys <= issued
  }

  ghost predicate DiskStep(d: Disk, d': Disk, guard: Option<OpId>) {
    && (forall id :: id in d.records ==> id in d'.records && Evolves(d.records[id], d'.records[id]))
    && (guard.Some? ==>
          && d'.lock == d.lock && d'.records.Keys == d.records.Keys
          && (guard.value in d.records ==> d'.records[guard.value] == d.records[guard.value]))
  }

  lemma LegalOne(d: Disk, w: Write, guard: Option<OpId>, issued: set<OpId>)
    requires DiskOk(d, issued) && LegalWrite(d, w, guard, issued)
    ensures DiskOk(ApplyOne(d, w), issued) && DiskStep(d, ApplyOne(d, w), guard)
  {
  }

  lemma {:induction false} LegalPrefix(d: Disk, ws: seq<Write>, k: nat, guard: Option<OpId>, issued: set<OpId>)
    requires DiskOk(d, issued) && Legal(d, ws, guard, issued) && k <= |ws|
    ensures DiskOk(Apply(d, ws[..k]), issued) && DiskStep(d, Apply(d, ws[..k]), guard)
    decreases |ws|
  {
    if k > 0 {
      LegalOne(d, ws[0], guard, issued);
      LegalPrefix(ApplyOne(d, ws[0]), ws[1..], k - 1, guard, issued);
      assert ws[..k][1..] == ws[1..][..k - 1];
    }
  }

  lemma {:induction false} ApplyConcat(d: Disk, a: seq<Write>, b: seq<Write>)
    ensures Apply(d, a + b) == Apply(Apply(d, a), b)
    decreases |a|
  {
    if a == [] {
      assert a + b == b;
    } else {
      assert (a + b)[1..] == a[1..] + b;
      ApplyConcat(ApplyOne(d, a[0]), a[1..], b);
    }
  }

  lemma {:induction false} LegalConcat(d: Disk, a: seq<Write>, b: seq<Write>, guard: Option<OpId>, issued: set<OpId>)
    requires Legal(d, a, guard, issued) && Legal(Apply(d, a), b, guard, issued)
    ensures Legal(d, a + b, guard, issued)
    decreases |a|
  {
    if a == [] {
      assert a + b == b;
    } else {
      assert (a + b)[1..] == a[1..] + b;
      LegalConcat(ApplyOne(d, a[0]), a[1..], b, guard, issued);
    }
  }

  lemma OneWrite(d: Disk, a: Write, guard: Option<OpId>, issued: set<OpId>)
    ensures Apply(d, [a]) == ApplyOne(d, a)
    ensures Legal(d, [a], guard, issued) == LegalWrite(d, a, guard, issued)
  {
    assert [a][1..] == [];
  }

  lemma TwoWrites(d: Disk, a: Write, b: Write, guard: Option<OpId>, issued: set<OpId>)
    ensures Apply(d, [a, b]) == ApplyOne(ApplyOne(d, a), b)
    ensures Legal(d, [a, b], guard, issued)
            == (LegalWrite(d, a, guard, issued) && LegalWrite(ApplyOne(d, a), b, guard, issued))
  {
    assert [a, b][1..] == [b];
    OneWrite(ApplyOne(d, a), b, guard, issued);
  }

  lemma {:induction false} Untouched(d: Disk, ws: seq<Write>, id: OpId)
    requires forall i :: 0 <= i < |ws| && ws[i].Put? ==> ws[i].id != id
    ensures (id in Apply(d, ws).records) == (id in d.records)
    ensures id in d.records ==> Apply(d, ws).records[id] == d.records[id]
    decreases |ws|
  {
    if ws != [] {
      forall i | 0 <= i < |ws[1..]| && ws[1..][i].Put? ensures ws[1..][i].id != id {
        assert ws[1..][i] == ws[i + 1];
      }
      Untouched(ApplyOne(d, ws[0]), ws[1..], id);
    }
  }

  // ---------------------------------------------------------------- reconcile

  lemma {:induction false} SweepLegal(d: Disk, records: map<OpId, Record>, listing: seq<OpId>, active: Option<OpId>,
                                      guard: Option<OpId>, issued: set<OpId>)
    requires forall i :: 0 <= i < |listing| ==>
                           listing[i] in records && listing[i] in d.records
                             && d.records[listing[i]] == records[listing[i]]
    requires forall i, j :: 0 <= i < j < |listing| ==> listing[i] != listing[j]
    requires guard.Some? ==> active == guard
    ensures Legal(d, Sweep(records, listing, active), guard, issued)
    ensures Apply(d, Sweep(records, listing, active)).lock == d.lock
    decreases |listing|
  {
    if listing != [] {
      var ws := Sweep(records, listing, active);
      var tail := Sweep(records, listing[1..], active);
      if ws == tail {
        SweepLegal(d, records, listing[1..], active, guard, issued);
      } else {
        assert ws[0] == Put(listing[0], Interrupt(records[listing[0]])) && ws[1..] == tail;
        SweepLegal(ApplyOne(d, ws[0]), records, listing[1..], active, guard, issued);
      }
    }
  }

  /** Sweeping leaves no listed record unfinished but the active one. */
  lemma {:induction false} SweepFinishes(d: Disk, records: map<OpId, Record>, listing: seq<OpId>,
                                         active: Option<OpId>, id: OpId)
    requires forall i :: 0 <= i < |listing| ==>
                           listing[i] in records && listing[i] in d.records
                             && d.records[listing[i]] == records[listing[i]]
    requires forall i, j :: 0 <= i < j < |listing| ==> listing[i] != listing[j]
    requires id in listing && active != Some(id)
    ensures id in Apply(d, Sweep(records, listing, active)).records
    ensures var r := Apply(d, Sweep(records, listing, active)).records[id];
            r.legacy || !r.Unfinished()
    decreases |listing|
  {
    var ws := Sweep(records, listing, active);
    var tail := Sweep(records, listing[1..], active);
    SweepUpdates(records, listing[1..], active);
    if ws == tail {
      if id == listing[0] {
        assert id !in listing[1..];
        Untouched(d, tail, id);
      } else {
        SweepFinishes(d, records, listing[1..], active, id);
      }
    } else {
      assert ws[0] == Put(listing[0], Interrupt(records[listing[0]])) && ws[1..] == tail;
      if id == listing[0] {
        assert id !in listing[1..];
        Untouched(ApplyOne(d, ws[0]), tail, id);
      } else {
        SweepFinishes(ApplyOne(d, ws[0]), records, listing[1..], active, id);
      }
    }
  }

  lemma BreakStaleLegal(d: Disk, alive: set<Pid>, now: int, bound: nat, issued: set<OpId>)
    ensures Legal(d, BreakStale(d, alive, now, bound), None, issued)
    ensures var d' := Apply(d, BreakStale(d, alive, now, bound));
            d'.records.Keys == d.records.Keys
            && (forall id :: id in d.records && !d.records[id].Unfinished() ==> d'.records[id] == d.records[id])
            && d'.lock == if d.lock.Held? && Stale(d.lock.meta, alive, now, bound) then Free else d.lock
  {
    if d.lock.Held? && Stale(d.lock.meta, alive, now, bound) {
      var mark := MarkInterrupted(d, d.lock.meta.op);
      OneWrite(d, SetLock(Free), None, issued);
      if mark == [] {
        assert BreakStale(d, alive, now, bound) == [SetLock(Free)];
      } else {
        assert BreakStale(d, alive, now, bound) == [SetLock(Free), mark[0]];
        TwoWrites(d, SetLock(Free), mark[0], None, issued);
      }
    }
  }

  lemma ReconcileLegal(d: Disk, listing: seq<OpId>, alive: set<Pid>, now: int, guard: Option<OpId>, issued: set<OpId>)
    requires Lists(listing, d.records)
    requires guard.Some? ==>
               d.lock.Held? && d.lock.meta.op == guard.value && !Stale(d.lock.meta, alive, now, DEFAULT_STALE_MS)
    ensures Legal(d, ReconcileWrites(d, listing, alive, now), guard, issued)
    ensures var d' := Apply(d, ReconcileWrites(d, listing, alive, now));
            d'.records.Keys == d.records.Keys
            && d'.lock == if d.lock.Held? && Stale(d.lock.meta, alive, now, DEFAULT_STALE_MS) then Free else d.lock
  {
    var first := BreakStale(d, alive, now, DEFAULT_STALE_MS);
    BreakStaleLegal(d, alive, now, DEFAULT_STALE_MS, issued);
    var d1 := Apply(d, first);
    SweepLegal(d1, d1.records, listing, ActiveOp(d1.lock), guard, issued);
    LegalConcat(d, first, Sweep(d1.records, listing, ActiveOp(d1.lock)), guard, issued);
    ApplyConcat(d, first, Sweep(d1.records, listing, ActiveOp(d1.lock)));
    ReconcileKeepsIds(d, listing, alive, now);
  }

  /** After a reconcile, whatever the disk was, an unfinished record is the one the lock names. */
  lemma AfterReconcile(d: Disk, listing: seq<OpId>, alive: set<Pid>, now: int, id: OpId)
    requires Lists(listing, d.records)
    ensures var d' := Apply(d, ReconcileWrites(d, listing, alive, now));
            id in d'.records && !d'.records[id].legacy && d'.records[id].Unfinished() ==>
              d'.lock.Held? && d'.lock.meta.op == id
  {
    var first := BreakStale(d, alive, now, DEFAULT_STALE_MS);
    UpdatesKeepIds(d, first);
    var d1 := Apply(d, first);
    var active := ActiveOp(d1.lock);
    ApplyConcat(d, first, Sweep(d1.records, listing, active));
    SweepLegal(d1, d1.records, listing, active, None, {});
    ReconcileKeepsIds(d, listing, alive, now);
    if id in d.records && active != Some(id) {
      SweepFinishes(d1, d1.records, listing, active, id);
    }
  }

  // ---------------------------------------------------------------- begin

  lemma FindNone(listing: seq<OpId>, records: map<OpId, Record>, key: string)
    requires Lists(listing, records) && Find(listing, records, key).None?
    ensures KeyUnused(records, key)
  {
    forall id | id in records ensures !Matches(records[id], key) {
      assert id in listing;
    }
  }

  lemma FindUnique(listing: seq<OpId>, records: map<OpId, Record>, id: OpId)
    requires Lists(listing, records) && OneRecordPerKey(records) && id in records && !records[id].legacy
    ensures Find(listing, records, records[id].key) == Some(id)
  {
    assert id in listing;
    var f := Find(listing, records, records[id].key);
    if f.Some? {
      assert Matches(records[f.value], records[id].key);
    }
  }

  lemma BeginOk(d: Disk, call: Call, listing: seq<OpId>, issued: set<OpId>)
    requires Lists(listing, d.records) && OneRecordPerKey(d.records)
    requires call.phase.Resolving? && CallOk(d.records, call) && call.op in issued
    requires d.lock.Held? && d.lock.meta.op == call.op
    ensures var st := BeginStretch(d, call, listing);
            var d' := Apply(d, st.writes);
            && Legal(d, st.writes, None, issued)
            && (st.after.Stay? ==>
                  && st.after.call.op == call.op && st.after.call.pid == call.pid && st.after.call.req == call.req
                  && CallOk(d'.records, st.after.call) && d'.lock == d.lock)
            && (st.after.Stay? && st.after.call.phase.Executing? ==>
                  call.op in d.records ==> d.records[call.op].status in call.req.resume * {Failed, Interrupted})
  {
    var st := BeginStretch(d, call, listing);
    var ignore := if call.resumed.Some? then Some(call.op) else None;
    var found := Find(listing, d.records, call.req.key);
    var verdict := CheckIdempotency(d.records, found, call.req, ignore);
    if verdict.Replay? || verdict.Refused() {
    } else if call.resumed.Some? {
      var r := d.records[call.op].(status := Running, stage := OrElse(call.resumed.value, "executing"), error := "");
      assert st.writes == [Put(call.op, r), Put(call.op, r.(stage := "executing"))];
      TwoWrites(d, st.writes[0], st.writes[1], None, issued);
    } else {
      assert found.None?;
      FindNone(listing, d.records, call.req.key);
      var r := NewRecord(call.req);
      var ws := [Put(call.op, r), Put(call.op, r.(status := Running, stage := "preparing")),
                 Put(call.op, r.(status := Running, stage := "executing"))];
      assert st.writes == ws;
      assert ws == [ws[0]] + [ws[1], ws[2]];
      OneWrite(d, ws[0], None, issued);
      TwoWrites(ApplyOne(d, ws[0]), ws[1], ws[2], None, issued);
      LegalConcat(d, [ws[0]], [ws[1], ws[2]], None, issued);
      ApplyConcat(d, [ws[0]], [ws[1], ws[2]]);
    }
  }

  // ---------------------------------------------------------------- steps keep the invariant

  ghost predicate Allowed(step: Step) {
    step.action.Admit? ==> Supported(step.action.req)
  }

  /** The live owner an action must not disturb: the one call, unless it is the call that acts. */
  ghost function Guard(s: State, a: Action): Option<OpId> {
    if exists c :: c in s.calls && !(HasCall(a) && a.c == c)
    then var c :| c in s.calls && !(HasCall(a) && a.c == c); Some(s.calls[c].op)
    else None
  }

  lemma GuardIs(s: State, a: Action)
    requires Inv(s)
    ensures Guard(s, a).None? ==> forall c :: c in s.calls ==> HasCall(a) && a.c == c
    ensures Guard(s, a).Some? ==>
              exists c :: c in s.calls && !(HasCall(a) && a.c == c) && Guard(s, a).value == s.calls[c].op
    ensures forall c :: c in s.calls && !(HasCall(a) && a.c == c) ==> Guard(s, a) == Some(s.calls[c].op)
  {
  }

  lemma LiveLockNotStale(s: State, bound: nat)
    requires Inv(s) && s.calls != map[] && s.patience <= bound
    ensures s.disk.lock.Held? && !Stale(s.disk.lock.meta, s.alive, s.now, bound)
  {
    var c :| c in s.calls;
    assert HoldsLock(s, s.calls[c]);
  }

  /** What the call left by a completed stretch must satisfy. */
  ghost predicate AfterOk(s: State, a: Action, d': Disk, after: After) {
    after.Stay? ==>
      && HasCall(a) && d'.lock.Held? && d'.lock.meta.op == after.call.op && d'.lock.meta.pid == after.call.pid
      && after.call.pid in s.alive && s.now - d'.lock.meta.heartbeat <= s.patience
      && CallOk(d'.records, after.call)
      && after.call.op in (if a.Admit? then s.issued + {a.newOp} else s.issued)
      && Guard(s, a).None?
  }

  ghost predicate StretchOk(s: State, a: Action, st: Stretch) {
    var issued := if a.Admit? then s.issued + {a.newOp} else s.issued;
    Legal(s.disk, st.writes, Guard(s, a), issued) && AfterOk(s, a, Apply(s.disk, st.writes), st.after)
  }

  lemma AcquireLegal(d: Disk, op: OpId, pid: Pid, alive: set<Pid>, now: int, bound: nat, issued: set<OpId>)
    requires DiskOk(d, issued)
    requires AcquireWrites(d, op, pid, alive, now, bound).Some?
    ensures var ws := AcquireWrites(d, op, pid, alive, now, bound).value;
            var d' := Apply(d, ws);
            Legal(d, ws, None, issued) && d'.lock == Held(LockMeta(op, pid, now)) && DiskOk(d', issued)
            && d'.records.Keys == d.records.Keys
            && forall id :: id in d.records && !d.records[id].Unfinished() ==> d'.records[id] == d.records[id]
  {
    var ws := AcquireWrites(d, op, pid, alive, now, bound).value;
    var take := [SetLock(Bare), SetLock(Held(LockMeta(op, pid, now)))];
    var first := BreakStale(d, alive, now, bound);
    TwoWrites(Apply(d, first), take[0], take[1], None, issued);
    if d.lock.Held? {
      BreakStaleLegal(d, alive, now, bound, issued);
      LegalConcat(d, first, take, None, issued);
      ApplyConcat(d, first, take);
    }
    LegalPrefix(d, ws, |ws|, None, issued);
    assert ws[..|ws|] == ws;
    AcquireKeepsIds(d, op, pid, alive, now, bound);
  }

  /** The verdict of the pre-lock check and the call that takes the lock on its strength. */
  ghost predicate Chose(d1: Disk, a: Action, verdict: Verdict, op: OpId)
    requires a.Admit? && Lists(a.listing, d1.records)
  {
    && verdict == (if a.req.deferred then Proceed
                   else CheckIdempotency(d1.records, Find(a.listing, d1.records, a.req.key), a.req, None))
    && !verdict.Replay? && !verdict.Refused()
    && op == if verdict.Resume? then verdict.op else a.newOp
  }

  function NewCall(d1: Disk, a: Action, verdict: Verdict, op: OpId): Call
    requires a.Admit?
  {
    Call(a.pid, op, a.req, if verdict.Resume? && op in d1.records then Some(d1.records[op].stage) else None,
         "validating", Resolving)
  }

  lemma NewCallOk(d1: Disk, d2: Disk, a: Action, verdict: Verdict, op: OpId, issued: set<OpId>)
    requires a.Admit? && Supported(a.req) && Lists(a.listing, d1.records) && Chose(d1, a, verdict, op)
    requires a.newOp !in d1.records && d2.records.Keys == d1.records.Keys && DiskStep(d1, d2, None)
    requires forall id :: id in d1.records && !d1.records[id].Unfinished() ==> d2.records[id] == d1.records[id]
    ensures CallOk(d2.records, NewCall(d1, a, verdict, op))
  {
    if !verdict.Resume? && !a.req.deferred {
      FindNone(a.listing, d1.records, a.req.key);
      forall id | id in d2.records ensures !Matches(d2.records[id], a.req.key) {
        assert Evolves(d1.records[id], d2.records[id]);
      }
    }
  }

  function BeginsWith(a: Action, ws: seq<Write>, d2: Disk, call: Call): Stretch
    requires a.Admit? && forall i :: 0 <= i < |a.listing| ==> a.listing[i] in d2.records
  {
    if a.req.resolver then Stretch(ws, Stay(call), Waiting)
    else
      var rest := BeginStretch(d2, call, a.listing);
      Stretch(ws + rest.writes, rest.after, rest.outcome)
  }

  lemma TakeShape(d: Disk, a: Action, alive: set<Pid>, now: int, verdict: Verdict, op: OpId, taken: seq<Write>)
    requires a.Admit? && Lists(a.listing, d.records) && Chose(d, a, verdict, op)
    requires AcquireWrites(d, op, a.pid, alive, now, StaleBound(a.req)) == Some(taken)
    requires Apply(d, taken).records.Keys == d.records.Keys
    ensures TakeStretch(d, a.req, a.newOp, a.pid, alive, now, a.listing)
            == BeginsWith(a, taken, Apply(d, taken), NewCall(d, a, verdict, op))
  {
  }

  /** An admission that writes after its reconcile has chosen an operation and taken the lock for it. */
  lemma TakeWrote(d: Disk, a: Action, alive: set<Pid>, now: int) returns (verdict: Verdict, op: OpId, taken: seq<Write>)
    requires a.Admit? && Lists(a.listing, d.records)
    requires TakeStretch(d, a.req, a.newOp, a.pid, alive, now, a.listing).writes != []
    ensures Chose(d, a, verdict, op) && AcquireWrites(d, op, a.pid, alive, now, StaleBound(a.req)) == Some(taken)
    ensures Apply(d, taken).records.Keys == d.records.Keys
    ensures TakeStretch(d, a.req, a.newOp, a.pid, alive, now, a.listing).writes
            == BeginsWith(a, taken, Apply(d, taken), NewCall(d, a, verdict, op)).writes
  {
    verdict := if a.req.deferred then Proceed
               else CheckIdempotency(d.records, Find(a.listing, d.records, a.req.key), a.req, None);
    op := if verdict.Resume? then verdict.op else a.newOp;
    taken := AcquireWrites(d, op, a.pid, alive, now, StaleBound(a.req)).value;
    AcquireKeepsIds(d, op, a.pid, alive, now, StaleBound(a.req));
    TakeShape(d, a, alive, now, verdict, op, taken);
  }

  lemma AdmitBegins(s: State, a: Action, ws: seq<Write>, d2: Disk, call: Call)
    requires a.Admit? && s.calls == map[] && Lists(a.listing, d2.records) && a.pid in s.alive
    requires Legal(s.disk, ws, None, s.issued + {a.newOp}) && d2 == Apply(s.disk, ws) && OneRecordPerKey(d2.records)
    requires d2.lock == Held(LockMeta(call.op, call.pid, s.now)) && call.op in s.issued + {a.newOp}
    requires call.phase.Resolving? && call.pid == a.pid && call.req == a.req && CallOk(d2.records, call)
    ensures StretchOk(s, a, BeginsWith(a, ws, d2, call))
    ensures BeginsWith(a, ws, d2, call).after.Stay? ==> BeginsWith(a, ws, d2, call).after.call.req == a.req
  {
    if !a.req.resolver {
      var rest := BeginStretch(d2, call, a.listing);
      BeginOk(d2, call, a.listing, s.issued + {a.newOp});
      ApplyConcat(s.disk, ws, rest.writes);
      LegalConcat(s.disk, ws, rest.writes, None, s.issued + {a.newOp});
    }
  }

  /** The lock is taken and the call it is taken for fits the records. */
  lemma TakenOk(s: State, a: Action, verdict: Verdict, op: OpId, taken: seq<Write>, d2: Disk, call: Call)
    requires a.Admit? && Supported(a.req) && s.calls == map[] && DiskOk(s.disk, s.issued + {a.newOp})
    requires Lists(a.listing, s.disk.records) && a.newOp !in s.disk.records && Chose(s.disk, a, verdict, op)
    requires AcquireWrites(s.disk, op, a.pid, s.alive, s.now, StaleBound(a.req)) == Some(taken)
    requires d2 == Apply(s.disk, taken) && call == NewCall(s.disk, a, verdict, op)
    ensures Legal(s.disk, taken, None, s.issued + {a.newOp}) && d2.records.Keys == s.disk.records.Keys
    ensures OneRecordPerKey(d2.records) && d2.lock == Held(LockMeta(op, a.pid, s.now)) && CallOk(d2.records, call)
  {
    var d, issued := s.disk, s.issued + {a.newOp};
    AcquireLegal(d, op, a.pid, s.alive, s.now, StaleBound(a.req), issued);
    LegalPrefix(d, taken, |taken|, None, issued);
    assert taken[..|taken|] == taken;
    NewCallOk(d, d2, a, verdict, op, issued);
  }

  lemma TakeOk(s: State, a: Action)
    requires a.Admit? && Supported(a.req) && s.calls == map[] && a.pid in s.alive
    requires Lists(a.listing, s.disk.records) && a.newOp !in s.disk.records && DiskOk(s.disk, s.issued + {a.newOp})
    ensures var st := TakeStretch(s.disk, a.req, a.newOp, a.pid, s.alive, s.now, a.listing);
            StretchOk(s, a, st) && (st.after.Stay? ==> st.after.call.req == a.req)
  {
    var d, issued := s.disk, s.issued + {a.newOp};
    var verdict := if a.req.deferred then Proceed
                   else CheckIdempotency(d.records, Find(a.listing, d.records, a.req.key), a.req, None);
    var op := if verdict.Resume? then verdict.op else a.newOp;
    var acquired := AcquireWrites(d, op, a.pid, s.alive, s.now, StaleBound(a.req));
    if !verdict.Replay? && !verdict.Refused() && acquired.Some? {
      var taken := acquired.value;
      var d2, call := Apply(d, taken), NewCall(d, a, verdict, op);
      TakenOk(s, a, verdict, op, taken, d2, call);
      AdmitBegins(s, a, taken, d2, call);
      TakeShape(d, a, s.alive, s.now, verdict, op, taken);
    }
  }

  /** The reconcile of an admission, whether or not a call is live. */
  lemma AdmitReconciles(s: State, a: Action, first: seq<Write>)
    requires Inv(s) && a.Admit? && Enabled(s, a) && first == ReconcileWrites(s.disk, a.listing, s.alive, s.now)
    ensures var issued := s.issued + {a.newOp};
            && Legal(s.disk, first, Guard(s, a), issued) && DiskOk(Apply(s.disk, first), issued)
            && DiskStep(s.disk, Apply(s.disk, first), Guard(s, a)) && Lists(a.listing, Apply(s.disk, first).records)
            && Apply(s.disk, first).records.Keys == s.disk.records.Keys
  {
    var issued, guard := s.issued + {a.newOp}, Guard(s, a);
    GuardIs(s, a);
    if s.calls != map[] { LiveLockNotStale(s, DEFAULT_STALE_MS); }
    ReconcileLegal(s.disk, a.listing, s.alive, s.now, guard, issued);
    ReconcileKeepsIds(s.disk, a.listing, s.alive, s.now);
    LegalPrefix(s.disk, first, |first|, guard, issued);
    assert first[..|first|] == first;
  }

  /** A live call's lock is fresh, so an admission beside it writes nothing after its reconcile. */
  lemma BusyTakes(s: State, a: Action, d1: Disk)
    requires Inv(s) && a.Admit? && s.calls != map[] && s.patience <= StaleBound(a.req)
    requires d1.lock == s.disk.lock && Lists(a.listing, d1.records)
    ensures var rest := TakeStretch(d1, a.req, a.newOp, a.pid, s.alive, s.now, a.listing);
            rest.writes == [] && rest.after == Leave
  {
    LiveLockNotStale(s, StaleBound(a.req));
  }

  lemma AdmitOk(s: State, a: Action)
    requires Inv(s) && a.Admit? && Enabled(s, a) && Supported(a.req)
    ensures StretchOk(s, a, StretchOf(s, a))
  {
    var d, issued, guard := s.disk, s.issued + {a.newOp}, Guard(s, a);
    var first := ReconcileWrites(d, a.listing, s.alive, s.now);
    var d1 := Apply(d, first);
    AdmitReconciles(s, a, first);
    var rest := TakeStretch(d1, a.req, a.newOp, a.pid, s.alive, s.now, a.listing);
    if s.calls == map[] {
      TakeOk(s.(disk := d1), a);
    } else {
      BusyTakes(s, a, d1);
    }
    LegalConcat(d, first, rest.writes, guard, issued);
    ApplyConcat(d, first, rest.writes);
  }

  lemma OwnStretchOk(s: State, a: Action)
    requires Inv(s) && Enabled(s, a) && HasCall(a) && !a.Admit?
    ensures StretchOk(s, a, StretchOf(s, a))
  {
    GuardIs(s, a);
    var call := s.calls[a.c];
    assert HoldsLock(s, call);
    if a.Resolved? && a.continues {
      BeginOk(s.disk, call, a.listing, s.issued);
    } else {
      var ws := StretchOf(s, a).writes;
      if |ws| == 1 {
        OneWrite(s.disk, ws[0], None, s.issued);
        assert ws == [ws[0]];
      } else if |ws| == 2 {
        TwoWrites(s.disk, ws[0], ws[1], None, s.issued);
        assert ws == [ws[0], ws[1]];
      }
    }
  }

  lemma AnyStretchOk(s: State, a: Action)
    requires Inv(s) && Enabled(s, a) && Allowed(Step(a, None))
    ensures StretchOk(s, a, StretchOf(s, a))
  {
    if a.Admit? {
      AdmitOk(s, a);
    } else if HasCall(a) {
      OwnStretchOk(s, a);
    } else if a.Reconcile? {
      GuardIs(s, a);
      if s.calls != map[] {
        LiveLockNotStale(s, DEFAULT_STALE_MS);
      }
      ReconcileLegal(s.disk, a.listing, s.alive, s.now, Guard(s, a), s.issued);
    }
  }

  lemma HistoryKept(d: Disk, d': Disk, guard: Option<OpId>, history: seq<Event>)
    requires HistoryOk(d.records, history) && DiskStep(d, d', guard)
    ensures HistoryOk(d'.records, history)
  {
    forall i {:trigger history[i]} | 0 <= i < |history|
      ensures history[i].op in d'.records && Matches(d'.records[history[i].op], history[i].key)
              && (history[i].Started? ==> d'.records[history[i].op].fingerprint == history[i].fingerprint)
              && (history[i].Won? ==> d'.records[history[i].op].status == Succeeded)
    {
      assert Evolves(d.records[history[i].op], d'.records[history[i].op]);
    }
  }

  lemma BystandersKept(s: State, a: Action, d': Disk)
    requires Inv(s) && DiskStep(s.disk, d', Guard(s, a))
    ensures forall c :: c in s.calls && !(HasCall(a) && a.c == c) ==>
                          HoldsLock(s.(disk := d'), s.calls[c]) && CallOk(d'.records, s.calls[c])
  {
    GuardIs(s, a);
    forall c | c in s.calls && !(HasCall(a) && a.c == c)
      ensures HoldsLock(s.(disk := d'), s.calls[c]) && CallOk(d'.records, s.calls[c])
    {
      assert HoldsLock(s, s.calls[c]) && CallOk(s.disk.records, s.calls[c]);
      forall id | id in d'.records && KeyUnused(s.disk.records, s.calls[c].req.key)
        ensures !Matches(d'.records[id], s.calls[c].req.key)
      {
        assert Evolves(s.disk.records[id], d'.records[id]);
      }
    }
  }

  /** A win is logged only for a record that has just become succeeded, so it is the first. */
  lemma WinIsFirst(s: State, a: Action, d': Disk)
    requires Inv(s) && a.Succeed? && Enabled(s, a)
    requires d'.records == s.disk.records[s.calls[a.c].op := SucceedStretch(s.disk, s.calls[a.c]).writes[0].record]
    requires HistoryOk(d'.records, s.history)
    ensures HistoryOk(d'.records, s.history + [Won(s.calls[a.c].op, s.calls[a.c].req.key)])
  {
    var call := s.calls[a.c];
    assert CallOk(s.disk.records, call);
    var h := s.history + [Won(call.op, call.req.key)];
    forall i | 0 <= i < |s.history| && s.history[i].Won? ensures s.history[i].op != call.op {
      assert s.disk.records[s.history[i].op].status == Succeeded;
    }
  }

  lemma StartIsFresh(s: State, d': Disk, call: Call)
    requires HistoryOk(d'.records, s.history) && CallOk(d'.records, call) && call.phase.Executing?
    ensures HistoryOk(d'.records, s.history + [Started(call.op, call.req.key, call.req.fingerprint)])
  {
    forall i | 0 <= i < |s.history| && s.history[i].Won? ensures s.history[i].op != call.op {
      assert d'.records[s.history[i].op].status == Succeeded;
    }
  }

  lemma SucceedWrites(s: State, a: Action, k: nat)
    requires Inv(s) && a.Succeed? && Enabled(s, a) && 0 < k <= |StretchOf(s, a).writes|
    ensures Apply(s.disk, StretchOf(s, a).writes[..k]).records
            == s.disk.records[s.calls[a.c].op := SucceedStretch(s.disk, s.calls[a.c]).writes[0].record]
  {
    var ws := StretchOf(s, a).writes;
    OneWrite(s.disk, ws[0], None, {});
    if k == 1 {
      assert ws[..k] == [ws[0]];
    } else {
      assert ws[..k] == [ws[0], ws[1]];
      TwoWrites(s.disk, ws[0], ws[1], None, {});
    }
  }

  lemma WorldKeepsInv(s: State, a: Action)
    requires Inv(s) && Enabled(s, a) && (a.Boot? || a.Kill? || a.Tick?)
    ensures Inv(Complete(s, a))
  {
    var s' := Complete(s, a);
    forall c | c in s'.calls ensures HoldsLock(s', s'.calls[c]) && CallOk(s'.disk.records, s'.calls[c]) {
      assert HoldsLock(s, s.calls[c]);
    }
  }

  /** The calls after a completed stretch hold the lock and fit the records. */
  lemma CompletedCalls(s: State, a: Action, s': State)
    requires Inv(s) && Enabled(s, a) && !(a.Boot? || a.Kill? || a.Tick?) && s' == Complete(s, a)
    requires StretchOk(s, a, StretchOf(s, a)) && DiskStep(s.disk, s'.disk, Guard(s, a))
    ensures forall c :: c in s'.calls ==> HoldsLock(s', s'.calls[c]) && CallOk(s'.disk.records, s'.calls[c])
  {
    BystandersKept(s, a, s'.disk);
    forall c | c in s'.calls ensures HoldsLock(s', s'.calls[c]) && CallOk(s'.disk.records, s'.calls[c]) {
      if c in s.calls && !(HasCall(a) && a.c == c) {
        assert s'.calls[c] == s.calls[c];
        assert HoldsLock(s.(disk := s'.disk), s.calls[c]);
      }
    }
  }

  /** The history after it: at most one event more, and that one is new. */
  lemma CompletedHistory(s: State, a: Action, s': State)
    requires Inv(s) && Enabled(s, a) && Allowed(Step(a, None)) && !(a.Boot? || a.Kill? || a.Tick?)
             && s' == Complete(s, a)
    requires StretchOk(s, a, StretchOf(s, a)) && DiskStep(s.disk, s'.disk, Guard(s, a))
    ensures HistoryOk(s'.disk.records, s'.history)
  {
    var st := StretchOf(s, a);
    HistoryKept(s.disk, s'.disk, Guard(s, a), s.history);
    if a.Succeed? {
      assert st.writes[..|st.writes|] == st.writes;
      SucceedWrites(s, a, |st.writes|);
      WinIsFirst(s, a, s'.disk);
    } else if Events(s, a, st) != [] {
      StartIsFresh(s, s'.disk, st.after.call);
    } else {
      assert s'.history == s.history;
    }
  }

  lemma CompleteKeepsInv(s: State, a: Action)
    requires Inv(s) && Enabled(s, a) && Allowed(Step(a, None))
    ensures Inv(Complete(s, a))
  {
    if !(a.Boot? || a.Kill? || a.Tick?) {
      var st, s' := StretchOf(s, a), Complete(s, a);
      AnyStretchOk(s, a);
      LegalPrefix(s.disk, st.writes, |st.writes|, Guard(s, a), s'.issued);
      assert st.writes[..|st.writes|] == st.writes;
      GuardIs(s, a);
      CompletedCalls(s, a, s');
      CompletedHistory(s, a, s');
    } else {
      WorldKeepsInv(s, a);
    }
  }

  lemma CutKeepsInv(s: State, a: Action, k: nat)
    requires Inv(s) && Enabled(s, a) && Allowed(Step(a, None)) && !a.Tick?
    requires k <= |StretchOf(s, a).writes|
    ensures Inv(CutShort(s, a, k))
  {
    var st, s' := StretchOf(s, a), CutShort(s, a, k);
    AnyStretchOk(s, a);
    LegalPrefix(s.disk, st.writes, k, Guard(s, a), s'.issued);
    BystandersKept(s, a, s'.disk);
    HistoryKept(s.disk, s'.disk, Guard(s, a), s.history);
    if a.Succeed? && k > 0 {
      SucceedWrites(s, a, k);
      WinIsFirst(s, a, s'.disk);
    } else {
      assert s'.history == s.history;
    }
    forall c | c in s'.calls ensures HoldsLock(s', s'.calls[c]) && CallOk(s'.disk.records, s'.calls[c]) {
      assert HoldsLock(s.(disk := s'.disk), s.calls[c]);
    }
  }

  lemma NextKeepsInv(s: State, step: Step, s': State)
    requires Inv(s) && Next(s, step, s') && Allowed(step)
    ensures Inv(s')
  {
    match step.cut
    case None => CompleteKeepsInv(s, step.action);
    case Some(k) => CutKeepsInv(s, step.action, k);
  }
}
