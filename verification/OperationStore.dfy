/**
  The operation records and the lock of one project, updated in place.  Each method is proved against
  the stretch that the step system of `Coordinator` uses for it.
 */
module OperationStore {
  import opened Options
  import opened Coordinator
  import S = CoordinatorSafety

  predicate Spared(listed: map<OpId, Record>, id: OpId, active: Option<OpId>)
    requires id in listed
  {
    listed[id].legacy || !listed[id].Unfinished() || active == Some(id)
  }

  lemma SweepFrom(listed: map<OpId, Record>, listing: seq<OpId>, i: nat, active: Option<OpId>)
    requires i < |listing| && forall k :: 0 <= k < |listing| ==> listing[k] in listed
    ensures Spared(listed, listing[i], active) ==>
              Sweep(listed, listing[i..], active) == Sweep(listed, listing[i + 1..], active)
    ensures !Spared(listed, listing[i], active) ==>
              Sweep(listed, listing[i..], active)
              == [Put(listing[i], Interrupt(listed[listing[i]]))] + Sweep(listed, listing[i + 1..], active)
  {
    assert listing[i..][0] == listing[i] && listing[i..][1..] == listing[i + 1..];
  }

  lemma PutFirst(d: Disk, w: Write, rest: seq<Write>)
    ensures Apply(d, [w] + rest) == Apply(ApplyOne(d, w), rest)
  {
    assert ([w] + rest)[1..] == rest;
  }

  class ProjectDirectory {
    var records: map<OpId, Record>
    var lock: Lock

    function View(): Disk reads this { Disk(records, lock) }

    constructor ()
      ensures View() == Disk(map[], Free)
    {
      records, lock := map[], Free;
    }

    method WriteRecord(id: OpId, r: Record)
      modifies this
      ensures View() == ApplyOne(old(View()), Put(id, r))
    {
      records := records[id := r];
    }

    method FindOperation(listing: seq<OpId>, key: string) returns (found: Option<OpId>)
      requires Lists(listing, records)
      ensures found == Find(listing, records, key)
    {
      var i := 0;
      while i < |listing|
        invariant i <= |listing|
        invariant Find(listing, records, key) == Find(listing[i..], records, key)
      {
        if Matches(records[listing[i]], key) {
          return Some(listing[i]);
        }
        i := i + 1;
      }
      return None;
    }

    method MarkOperationInterrupted(op: OpId)
      modifies this
      ensures View() == Apply(old(View()), MarkInterrupted(old(View()), op))
    {
      if op in records && !records[op].legacy && records[op].Unfinished() {
        WriteRecord(op, Interrupt(records[op]));
      }
    }

    /** Takes a stale lock away and interrupts the operation it named. */
    method QuarantineStaleLock(alive: set<Pid>, now: int, bound: nat)
      modifies this
      ensures View() == Apply(old(View()), BreakStale(old(View()), alive, now, bound))
    {
      if lock.Held? && Stale(lock.meta, alive, now, bound) {
        ghost var before := View();
        var op := lock.meta.op;
        lock := Free;
        MarkOperationInterrupted(op);
        S.ApplyConcat(before, [SetLock(Free)], MarkInterrupted(before, op));
        S.OneWrite(before, SetLock(Free), None, {});
      }
    }

    /** Interrupts the listed unfinished records, one after the other, except the one the lock names. */
    method SweepListed(listed: map<OpId, Record>, listing: seq<OpId>, active: Option<OpId>)
      requires forall k :: 0 <= k < |listing| ==> listing[k] in listed
      modifies this
      ensures View() == Apply(old(View()), Sweep(listed, listing, active))
    {
      ghost var goal := Apply(View(), Sweep(listed, listing, active));
      assert listing[0..] == listing;
      for i := 0 to |listing|
        invariant goal == Apply(View(), Sweep(listed, listing[i..], active))
      {
        SweepFrom(listed, listing, i, active);
        if !Spared(listed, listing[i], active) {
          PutFirst(View(), Put(listing[i], Interrupt(listed[listing[i]])), Sweep(listed, listing[i + 1..], active));
          WriteRecord(listing[i], Interrupt(listed[listing[i]]));
        }
      }
    }

    method ReconcileInterruptedOperations(listing: seq<OpId>, alive: set<Pid>, now: int)
      requires Lists(listing, records)
      modifies this
      ensures View() == Apply(old(View()), ReconcileWrites(old(View()), listing, alive, now))
    {
      ghost var before := View();
      ghost var first := BreakStale(before, alive, now, DEFAULT_STALE_MS);
      S.BreakStaleLegal(before, alive, now, DEFAULT_STALE_MS, {});
      QuarantineStaleLock(alive, now, DEFAULT_STALE_MS);
      ghost var swept := Sweep(records, listing, ActiveOp(lock));
      SweepListed(records, listing, ActiveOp(lock));
      S.ApplyConcat(before, first, swept);
    }

    /** Makes the lock directory; a stale one is first moved away and the attempt repeated. */
    method AcquireProjectLock(op: OpId, pid: Pid, alive: set<Pid>, now: int, bound: nat) returns (acquired: bool)
      modifies this
      ensures acquired == AcquireWrites(old(View()), op, pid, alive, now, bound).Some?
      ensures View() == if acquired
                        then Apply(old(View()), AcquireWrites(old(View()), op, pid, alive, now, bound).value)
                        else old(View())
      decreases if lock.Free? then 0 else 1
    {
      ghost var before := View();
      ghost var take := [SetLock(Bare), SetLock(Held(LockMeta(op, pid, now)))];
      S.TwoWrites(before, take[0], take[1], None, {});
      if lock.Free? {
        lock := Bare;
        lock := Held(LockMeta(op, pid, now));
        return true;
      }
      if lock.Held? && Stale(lock.meta, alive, now, bound) {
        QuarantineStaleLock(alive, now, bound);
        S.BreakStaleLegal(before, alive, now, bound, {});
        S.ApplyConcat(before, BreakStale(before, alive, now, bound), take);
        acquired := AcquireProjectLock(op, pid, alive, now, bound);
        return;
      }
      return false;
    }

    method Release(op: OpId)
      modifies this
      ensures View() == Apply(old(View()), ReleaseWrites(old(View()), op))
      ensures lock == if old(lock).Held? && old(lock).meta.op == op then Free else old(lock)
      ensures records == old(records)
    {
      if lock.Held? && lock.meta.op == op {
        S.OneWrite(View(), SetLock(Free), None, {});
        lock := Free;
      }
    }

    method Heartbeat(call: Call, now: int) returns (ok: bool)
      modifies this
      ensures View() == Apply(old(View()), HeartbeatWrites(old(View()), call, now))
      ensures ok == (old(lock).Held? && old(lock).meta.op == call.op)
      ensures lock == if ok then Held(LockMeta(call.op, call.pid, now)) else old(lock)
      ensures records == old(records)
    {
      ok := lock.Held? && lock.meta.op == call.op;
      if ok {
        S.OneWrite(View(), SetLock(Held(LockMeta(call.op, call.pid, now))), None, {});
        lock := Held(LockMeta(call.op, call.pid, now));
      }
    }

    /** The part of a run after the lock and the resolver. */
    method Begin(call: Call, listing: seq<OpId>) returns (after: After, outcome: Outcome)
      requires Lists(listing, records)
      modifies this
      ensures var st := BeginStretch(old(View()), call, listing);
              View() == Apply(old(View()), st.writes) && after == st.after && outcome == st.outcome
    {
      ghost var before := View();
      var found := FindOperation(listing, call.req.key);
      var verdict := CheckIdempotency(records, found, call.req, if call.resumed.Some? then Some(call.op) else None);
      if verdict.Replay? {
        return Stay(call.(phase := CheckingReplay)), Replayed(verdict.op);
      }
      if verdict.Refused() {
        Release(call.op);
        return Leave, Rejected(verdict);
      }
      if call.resumed.Some? && call.op !in records {
        Release(call.op);
        return Leave, Finished;
      }
      if call.resumed.Some? {
        var r := records[call.op].(status := Running, stage := OrElse(call.resumed.value, "executing"), error := "");
        WriteRecord(call.op, r);
        WriteRecord(call.op, r.(stage := "executing"));
        S.TwoWrites(before, Put(call.op, r), Put(call.op, r.(stage := "executing")), None, {});
      } else {
        var r := NewRecord(call.req);
        WriteRecord(call.op, r);
        WriteRecord(call.op, r.(status := Running, stage := "preparing"));
        WriteRecord(call.op, r.(status := Running, stage := "executing"));
        ghost var ws := BeginStretch(before, call, listing).writes;
        assert ws == [ws[0]] + [ws[1], ws[2]];
        S.ApplyConcat(before, [ws[0]], [ws[1], ws[2]]);
        S.OneWrite(before, ws[0], None, {});
        S.TwoWrites(ApplyOne(before, ws[0]), ws[1], ws[2], None, {});
      }
      return Stay(call.(phase := Executing, stage := "executing")), Waiting;
    }

    /** `runProjectOperation` up to its first `await`. */
    method Admit(req: Request, newOp: OpId, pid: Pid, alive: set<Pid>, now: int, listing: seq<OpId>)
      returns (after: After, outcome: Outcome)
      requires Lists(listing, records)
      modifies this
      ensures var st := AdmitStretch(old(View()), req, newOp, pid, alive, now, listing);
              View() == Apply(old(View()), st.writes) && after == st.after && outcome == st.outcome
    {
      ghost var before := View();
      ghost var first := ReconcileWrites(before, listing, alive, now);
      ReconcileInterruptedOperations(listing, alive, now);
      ReconcileKeepsIds(before, listing, alive, now);
      ghost var d := View();
      ghost var rest := TakeStretch(d, req, newOp, pid, alive, now, listing);
      S.ApplyConcat(before, first, rest.writes);
      var verdict := Proceed;
      if !req.deferred {
        var found := FindOperation(listing, req.key);
        verdict := CheckIdempotency(records, found, req, None);
      }
      if verdict.Replay? {
        return Leave, Replayed(verdict.op);
      }
      if verdict.Refused() {
        return Leave, Rejected(verdict);
      }
      var op := if verdict.Resume? then verdict.op else newOp;
      var resumed := if verdict.Resume? && op in records then Some(records[op].stage) else None;
      var acquired := AcquireProjectLock(op, pid, alive, now, StaleBound(req));
      if !acquired {
        return Leave, Conflict;
      }
      ghost var taken := AcquireWrites(d, op, pid, alive, now, StaleBound(req)).value;
      AcquireKeepsIds(d, op, pid, alive, now, StaleBound(req));
      var call := Call(pid, op, req, resumed, "validating", Resolving);
      if req.resolver {
        return Stay(call), Waiting;
      }
      S.ApplyConcat(d, taken, BeginStretch(View(), call, listing).writes);
      after, outcome := Begin(call, listing);
    }

    method SetStage(call: Call, stage: string) returns (call': Call)
      requires call.op in records
      modifies this
      ensures var st := StageStretch(old(View()), call, stage);
              View() == Apply(old(View()), st.writes) && Stay(call') == st.after
    {
      var s := OrElse(stage, OrElse(call.stage, "executing"));
      S.OneWrite(View(), Put(call.op, records[call.op].(status := Running, stage := s)), None, {});
      WriteRecord(call.op, records[call.op].(status := Running, stage := s));
      call' := call.(stage := s);
    }

    method Succeed(call: Call)
      requires call.op in records
      modifies this
      ensures View() == Apply(old(View()), SucceedStretch(old(View()), call).writes)
    {
      ghost var before := View();
      var r := records[call.op].(status := Succeeded, stage := "completed", error := "");
      WriteRecord(call.op, r);
      S.OneWrite(before, Put(call.op, r), None, {});
      S.ApplyConcat(before, [Put(call.op, r)], ReleaseWrites(before, call.op));
      Release(call.op);
    }

    method Fail(call: Call, code: string, recorded: bool)
      requires call.op in records
      modifies this
      ensures View() == Apply(old(View()), FailStretch(old(View()), call, code, recorded).writes)
    {
      ghost var before := View();
      if recorded {
        var r := records[call.op].(status := Failed, stage := OrElse(call.stage, "failed"), error := code);
        WriteRecord(call.op, r);
        S.OneWrite(before, Put(call.op, r), None, {});
        S.ApplyConcat(before, [Put(call.op, r)], ReleaseWrites(before, call.op));
      } else {
        assert FailStretch(before, call, code, false).writes == ReleaseWrites(before, call.op);
      }
      Release(call.op);
    }
  }
}
