/** A run from an empty project to two records of one plan. */
module AreaApplyExample {
  import opened Options
  import opened Coordinator
  import opened CoordinatorSafety
  import opened CoordinatorRuns
  import opened AreaApply
  import opened AreaApplySafety
  import opened AreaApplyRecords

  const PLANS := map["plan" := Plan("snapshot", [])]

  function Asked(key: string): Request {
    Request(APPLY, key, "f", map[PLAN_KEY := "plan"], {}, false, false, 0)
  }

  function Started(): Record { NewRecord(Asked("key-1")).(status := Running, stage := "executing") }

  /** A project with no process, before or after the first attempt. */
  function Quiet(disk: Disk, alive: set<Pid>, issued: set<OpId>, history: seq<Event>): World {
    World(State(disk, map[], alive, 0, 60000, issued, history), Site(None, []), PLANS, map[], [])
  }

  function Attempted(): Disk { Disk(map["op-1" := Started()], Held(LockMeta("op-1", 7, 0))) }

  const LOG := [Event.Started("op-1", "key-1", "f")]

  function Working(): World {
    var call := Call(7, "op-1", Asked("key-1"), None, "executing", Executing);
    World(State(Attempted(), map[0 := call], {7}, 0, 60000, {"op-1"}, LOG), Site(None, []), PLANS, map[0 := Begun], [])
  }

  lemma Extended(ws: seq<World>, ms: seq<Move>, m: Move, w: World)
    requires LayerRun(ws, ms) && Moves(ws[|ws| - 1], m, w)
    ensures LayerRun(ws + [w], ms + [m])
  {
    var all, made := ws + [w], ms + [m];
    forall i | 0 <= i < |made| ensures Moves(all[i], made[i], all[i + 1]) {
      assert i < |ms| ==> all[i] == ws[i] && all[i + 1] == ws[i + 1] && made[i] == ms[i];
    }
  }

  /** The writes of the first admission: the lock, then the record in its three stages. */
  lemma FirstStretch()
    ensures var r := NewRecord(Asked("key-1"));
            AdmitStretch(Disk(map[], Free), Asked("key-1"), "op-1", 7, {7}, 0, [])
            == Stretch([SetLock(Bare), SetLock(Held(LockMeta("op-1", 7, 0))), Put("op-1", r),
                        Put("op-1", r.(status := Running, stage := "preparing")), Put("op-1", Started())],
                       Stay(Call(7, "op-1", Asked("key-1"), None, "executing", Executing)), Waiting)
  {
    var empty := Disk(map[], Free);
    var taken := [SetLock(Bare), SetLock(Held(LockMeta("op-1", 7, 0)))];
    assert ReconcileWrites(empty, [], {7}, 0) == [];
    assert Apply(empty, taken) == Apply(Disk(map[], Bare), [taken[1]]) == Disk(map[], Held(LockMeta("op-1", 7, 0)));
  }

  lemma OneByOne(d: Disk, w: Write, ws: seq<Write>)
    ensures Apply(d, [w] + ws) == Apply(ApplyOne(d, w), ws)
  {
    assert ([w] + ws)[1..] == ws;
  }

  lemma FirstWrites(r: Record, s: Record, t: Record)
    ensures Apply(Disk(map[], Free), [SetLock(Bare), SetLock(Held(LockMeta("op-1", 7, 0))), Put("op-1", r),
                                      Put("op-1", s), Put("op-1", t)])
            == Disk(map["op-1" := t], Held(LockMeta("op-1", 7, 0)))
  {
    var held := Held(LockMeta("op-1", 7, 0));
    var last := [Put("op-1", t)];
    var two := [Put("op-1", s)] + last;
    var three := [Put("op-1", r)] + two;
    var four := [SetLock(held)] + three;
    OneByOne(Disk(map[], Free), SetLock(Bare), four);
    OneByOne(Disk(map[], Bare), SetLock(held), three);
    OneByOne(Disk(map[], held), Put("op-1", r), two);
    OneByOne(Disk(map["op-1" := r], held), Put("op-1", s), last);
    assert map["op-1" := r]["op-1" := s] == map["op-1" := s] && map["op-1" := s]["op-1" := t] == map["op-1" := t];
    assert [SetLock(Bare)] + four
        == [SetLock(Bare), SetLock(held), Put("op-1", r), Put("op-1", s), Put("op-1", t)];
  }

  const FIRST := Core(Step(Admit(0, 7, Asked("key-1"), "op-1", []), None))

  lemma FirstCompletes(s: State)
    requires s == State(Disk(map[], Free), map[], {7}, 0, 60000, {}, [])
    ensures Enabled(s, FIRST.step.action) && Complete(s, FIRST.step.action) == Working().core
  {
    var r := NewRecord(Asked("key-1"));
    FirstStretch();
    FirstWrites(r, r.(status := Running, stage := "preparing"), Started());
    assert Lists([], s.disk.records);
  }

  lemma FirstAdmission()
    ensures Moves(Quiet(Disk(map[], Free), {7}, {}, []), FIRST, Working())
  {
    var w := Quiet(Disk(map[], Free), {7}, {}, []);
    FirstCompletes(w.core);
    assert JobsAfter(w, Working().core) == Working().jobs;
  }

  /** The first attempt's record and lock are on disk, its owner is gone, and a new launcher runs. */
  ghost predicate Restarted(w: World) {
    && w.core.disk == Attempted() && w.core.alive == {8} && 1 !in w.core.calls && w.core.issued == {"op-1"}
    && w.core.now == 0 && w.core.patience == 60000 && w.plans == PLANS
  }

  lemma Killed(w: World) returns (w': World)
    requires w == Working()
    ensures Moves(w, Core(Step(Kill(7), None)), w')
    ensures w'.core == w.core.(alive := {}, calls := w'.core.calls) && w'.plans == PLANS && w'.core.calls.Keys <= {0}
  {
    var s' := Complete(w.core, Kill(7));
    w' := w.(core := s', jobs := JobsAfter(w, s'));
  }

  lemma Booted(w: World, pid: Pid) returns (w': World)
    requires pid !in w.core.alive
    ensures Moves(w, Core(Step(Boot(pid), None)), w')
    ensures w'.core == w.core.(alive := w.core.alive + {pid}) && w'.plans == w.plans && w'.site == w.site
    ensures w'.writes == w.writes && w'.jobs == JobsAfter(w, w'.core)
  {
    var s' := Complete(w.core, Boot(pid));
    w' := w.(core := s', jobs := JobsAfter(w, s'));
  }

  /** A launcher starts in an empty project and admits the first key. */
  lemma FirstAttempt() returns (ws: seq<World>, ms: seq<Move>)
    ensures LayerRun(ws, ms) && ws[|ws| - 1] == Working()
  {
    var w0 := Quiet(Disk(map[], Free), {}, {}, []);
    var w1 := Booted(w0, 7);
    assert {} + {7} == {7} && w1.jobs == map[];
    Extended([w0], [], Core(Step(Boot(7), None)), w1);
    FirstAdmission();
    ws, ms := [w0] + [w1], [] + [Core(Step(Boot(7), None))];
    Extended(ws, ms, FIRST, Working());
    ws, ms := ws + [Working()], ms + [FIRST];
  }

  /** Its owner dies and the launcher is started again. */
  lemma OwnerDied() returns (ws: seq<World>, ms: seq<Move>)
    ensures LayerRun(ws, ms) && Restarted(ws[|ws| - 1])
  {
    ws, ms := FirstAttempt();
    var w3 := Killed(Working());
    Extended(ws, ms, Core(Step(Kill(7), None)), w3);
    ws, ms := ws + [w3], ms + [Core(Step(Kill(7), None))];
    var w4 := Booted(w3, 8);
    assert {} + {8} == {8};
    Extended(ws, ms, Core(Step(Boot(8), None)), w4);
    ws, ms := ws + [w4], ms + [Core(Step(Boot(8), None))];
  }

  lemma SecondAdmission(w: World) returns (w': World, a: Action)
    requires Restarted(w)
    ensures a.Admit? && a.newOp == "op-2" && a.req == Asked("key-2") && Moves(w, Core(Step(a, None)), w')
  {
    a := Admit(1, 8, Asked("key-2"), "op-2", ["op-1"]);
    assert Lists(a.listing, w.core.disk.records);
    var s' := Complete(w.core, a);
    w' := w.(core := s', jobs := JobsAfter(w, s'));
  }

  lemma SecondRecord(w: World, w': World, a: Action)
    requires Restarted(w) && LayerInv(w) && Moves(w, Core(Step(a, None)), w')
    requires a.Admit? && a.newOp == "op-2" && a.req == Asked("key-2")
    ensures var records := w'.core.disk.records;
            && "op-1" in records && ApplyPlan(records["op-1"]) == Some("plan")
            && "op-2" in records && ApplyPlan(records["op-2"]) == Some("plan")
  {
    assert KeyUnused(w.core.disk.records, "key-2") && !Guarded(w.core, a.req);
    SecondRecordExactly(w, a, w', "op-1", "plan");
  }

  /** Then a second key is admitted for the same plan: the scan still sees the first attempt running, and
      the reconcile that interrupts it comes after the scan. */
  lemma SecondRecordExample() returns (ws: seq<World>, ms: seq<Move>)
    ensures LayerRun(ws, ms)
    ensures var records := ws[|ws| - 1].core.disk.records;
            && "op-1" in records && ApplyPlan(records["op-1"]) == Some("plan")
            && "op-2" in records && ApplyPlan(records["op-2"]) == Some("plan")
  {
    ws, ms := OwnerDied();
    var w := ws[|ws| - 1];
    LayerRunKeepsInv(ws, ms, |ws| - 1);
    var w', a := SecondAdmission(w);
    SecondRecord(w, w', a);
    Extended(ws, ms, Core(Step(a, None)), w');
    ws, ms := ws + [w'], ms + [Core(Step(a, None))];
  }
}
