/** Exclusion and a strict inventory, over every interleaving of creates and saves. */
module ProjectStoreSafety {
  import opened Options
  import opened ProjectStore
  import Slug

  predicate Owner(pc: Pc) { !pc.Waiting? }

  predicate Plans(pc: Pc) { (pc.Waiting? || pc.MadeDir? || pc.Inside?) && pc.t.Create? }

  predicate HasName(pc: Pc) { Plans(pc) || pc.Staging? }

  function NameId(pc: Pc): string
    requires HasName(pc)
  {
    if pc.Staging? then pc.record.id else pc.t.id
  }

  function NameLeaf(pc: Pc): string
    requires HasName(pc)
  {
    if pc.Staging? then pc.leaf else pc.t.leaf
  }

  ghost predicate PcOk(f: Files, pc: Pc) {
    && (Owner(pc) ==> f.lock == if pc.MadeDir? || pc.Unlinked? then LockDir(None) else LockDir(Some(pc.token)))
    && (Plans(pc) ==> pc.t.id != "" && Slug.Valid(pc.t.slug) && 1024 <= pc.t.port <= 65535 && pc.t.leaf !in f.staging)
    && (HasName(pc) ==> forall d :: d in f.projects ==> Slug.Lower(f.projects[d].id) != Slug.Lower(NameId(pc)))
    && (pc.Staging? ==> pc.leaf in f.staging && ValidRecord(pc.record.slug, pc.record) && Free(f.projects, pc.record))
  }

  ghost predicate Inv(s: System) {
    && (forall p :: p in s.pcs ==> PcOk(s.files, s.pcs[p]))
    && (forall p, q :: p in s.pcs && q in s.pcs && Owner(s.pcs[p]) && Owner(s.pcs[q]) ==> p == q)
    && (forall p, q :: p in s.pcs && q in s.pcs && p != q && HasName(s.pcs[p]) && HasName(s.pcs[q]) ==>
          && Slug.Lower(NameId(s.pcs[p])) != Slug.Lower(NameId(s.pcs[q])) && NameLeaf(s.pcs[p]) != NameLeaf(s.pcs[q]))
    && StrictProjects(s.files.projects)
  }

  /** The record a create is about to stage fits the inventory it was checked against. */
  lemma PreparedIsFree(f: Files, pc: Pc)
    requires pc.Inside? && pc.t.Create? && PcOk(f, pc) && StrictProjects(f.projects) && Prepared(f, pc.t).Some?
    ensures var r := Prepared(f, pc.t).value; ValidRecord(r.slug, r) && Free(f.projects, r)
  {
    var r := Prepared(f, pc.t).value;
    forall d | d in f.projects ensures !Clash(f.projects[d], r) {
      assert f.projects[d].subnet.Some? ==> f.projects[d].subnet.value in Taken(f.projects);
    }
  }

  lemma SaveKeepsStrict(projects: map<string, Record>, slug: string, r: Record)
    requires StrictProjects(projects) && slug in projects
    requires r.id == projects[slug].id && r.slug == projects[slug].slug && r.subnet == projects[slug].subnet
             && 1024 <= r.port <= 65535
    requires forall d :: d in projects && d != slug ==> projects[d].port != r.port
    ensures StrictProjects(projects[slug := r])
  {
    var after := projects[slug := r];
    forall d, e | d in after && e in after && Clash(after[d], after[e]) ensures d == e {
      assert Clash(projects[d], projects[e]) || after[d].port == after[e].port;
    }
  }

  lemma PublishKeepsStrict(projects: map<string, Record>, r: Record)
    requires StrictProjects(projects) && ValidRecord(r.slug, r) && Free(projects, r)
    ensures StrictProjects(projects[r.slug := r])
  {
    var after := projects[r.slug := r];
    forall d, e | d in after && e in after && Clash(after[d], after[e]) ensures d == e {
      assert d == r.slug ==> e == r.slug || Clash(projects[e], r);
    }
  }

  /** The other processes wait, so only files they do not depend on may change. */
  lemma WaitersKept(s: System, f': Files, p: Pid)
    requires Inv(s) && p in s.pcs && Owner(s.pcs[p])
    requires forall l :: l in f'.staging ==> l in s.files.staging || (Plans(s.pcs[p]) && l == NameLeaf(s.pcs[p]))
    requires forall d :: d in f'.projects ==>
                           || (d in s.files.projects && f'.projects[d].id == s.files.projects[d].id)
                           || (s.pcs[p].Staging? && f'.projects[d] == s.pcs[p].record)
    ensures forall q :: q in s.pcs && q != p ==> PcOk(f', s.pcs[q])
  {
  }

  /** A step moves one process; what it knows afterwards and what the others still know is the invariant. */
  lemma OneMoved(s: System, s': System, p: Pid)
    requires Inv(s) && forall q :: q in s'.pcs && q != p ==> q in s.pcs
    requires forall q :: q in s.pcs && q != p ==> q in s'.pcs && s'.pcs[q] == s.pcs[q] && PcOk(s'.files, s.pcs[q])
    requires p in s'.pcs ==> PcOk(s'.files, s'.pcs[p])
    requires p in s'.pcs && Owner(s'.pcs[p]) ==> (p in s.pcs && Owner(s.pcs[p])) || s.files.lock.NoLock?
    requires p in s'.pcs && HasName(s'.pcs[p]) ==>
               && p in s.pcs && HasName(s.pcs[p])
               && NameId(s'.pcs[p]) == NameId(s.pcs[p]) && NameLeaf(s'.pcs[p]) == NameLeaf(s.pcs[p])
    requires StrictProjects(s'.files.projects)
    ensures Inv(s')
  {
    OneOwnerKept(s, s', p);
    NamesKept(s, s', p);
  }

  lemma NamesKept(s: System, s': System, p: Pid)
    requires Inv(s) && forall q :: q in s'.pcs && q != p ==> q in s.pcs && s'.pcs[q] == s.pcs[q]
    requires p in s'.pcs && HasName(s'.pcs[p]) ==>
               && p in s.pcs && HasName(s.pcs[p])
               && NameId(s'.pcs[p]) == NameId(s.pcs[p]) && NameLeaf(s'.pcs[p]) == NameLeaf(s.pcs[p])
    ensures forall q, r :: q in s'.pcs && r in s'.pcs && q != r && HasName(s'.pcs[q]) && HasName(s'.pcs[r]) ==>
              && Slug.Lower(NameId(s'.pcs[q])) != Slug.Lower(NameId(s'.pcs[r]))
              && NameLeaf(s'.pcs[q]) != NameLeaf(s'.pcs[r])
  {
  }

  lemma OneOwnerKept(s: System, s': System, p: Pid)
    requires Inv(s) && forall q :: q in s'.pcs && q != p ==> q in s.pcs && s'.pcs[q] == s.pcs[q]
    requires p in s'.pcs && Owner(s'.pcs[p]) ==> (p in s.pcs && Owner(s.pcs[p])) || s.files.lock.NoLock?
    ensures forall q, r :: q in s'.pcs && r in s'.pcs && Owner(s'.pcs[q]) && Owner(s'.pcs[r]) ==> q == r
  {
    forall q, r | q in s'.pcs && r in s'.pcs && Owner(s'.pcs[q]) && Owner(s'.pcs[r]) ensures q == r {
      assert q != p ==> PcOk(s.files, s.pcs[q]);
      assert r != p ==> PcOk(s.files, s.pcs[r]);
    }
  }

  lemma ArriveOk(s: System, p: Pid, token: string, t: Transaction, s': System)
    requires Inv(s) && Next(s, Arrive(p, token, t), s')
    ensures Inv(s')
  {
    forall q, r | q in s'.pcs && r in s'.pcs && q != r && HasName(s'.pcs[q]) && HasName(s'.pcs[r])
      ensures Slug.Lower(NameId(s'.pcs[q])) != Slug.Lower(NameId(s'.pcs[r]))
              && NameLeaf(s'.pcs[q]) != NameLeaf(s'.pcs[r])
    {
      assert q == p ==> !UsesName(s.pcs[r], t);
      assert r == p ==> !UsesName(s.pcs[q], t);
    }
  }

  lemma LockStepOk(s: System, step: Step, s': System)
    requires step.MakeDir? || step.WriteOwner? || step.UnlinkOwner? || step.RemoveDir?
    requires Inv(s) && Next(s, step, s')
    ensures Inv(s')
  {
    var p := step.p;
    assert PcOk(s.files, s.pcs[p]);
    if step.MakeDir? {
      if s.files.lock.NoLock? { OneMoved(s, s', p); }
    } else {
      WaitersKept(s, s'.files, p);
      OneMoved(s, s', p);
    }
  }

  /** What a check changes in the files keeps every project strict. */
  lemma CheckedFiles(s: System, p: Pid)
    requires p in s.pcs && s.pcs[p].Inside? && PcOk(s.files, s.pcs[p]) && StrictProjects(s.files.projects)
    ensures var s' := Checked(s, p);
            && StrictProjects(s'.files.projects) && s'.files.lock == s.files.lock && s'.pcs == s.pcs[p := s'.pcs[p]]
            && (forall d :: d in s'.files.projects ==>
                  d in s.files.projects && s'.files.projects[d].id == s.files.projects[d].id)
            && (forall l :: l in s'.files.staging ==>
                  l in s.files.staging || (s.pcs[p].t.Create? && l == s.pcs[p].t.leaf))
            && PcOk(s'.files, s'.pcs[p]) && Owner(s'.pcs[p])
            && (HasName(s'.pcs[p]) ==>
                  && s.pcs[p].t.Create?
                  && NameId(s'.pcs[p]) == s.pcs[p].t.id && NameLeaf(s'.pcs[p]) == s.pcs[p].t.leaf)
  {
    var pc := s.pcs[p];
    if Strict(s.files) && pc.t.Create? && Prepared(s.files, pc.t).Some? {
      PreparedIsFree(s.files, pc);
    } else if Strict(s.files) && pc.t.Save? && Saveable(s.files, pc.t) {
      SaveKeepsStrict(s.files.projects, pc.t.slug, pc.t.record);
    }
  }

  lemma CheckOk(s: System, p: Pid, s': System)
    requires Inv(s) && Next(s, Check(p), s')
    ensures Inv(s')
  {
    assert PcOk(s.files, s.pcs[p]);
    CheckedFiles(s, p);
    WaitersKept(s, s'.files, p);
    OneMoved(s, s', p);
  }

  lemma StagingStepOk(s: System, step: Step, s': System)
    requires step.WriteFile? || step.Publish? || step.Abandon? || step.Die?
    requires Inv(s) && Next(s, step, s')
    ensures Inv(s')
  {
    var p := step.p;
    assert PcOk(s.files, s.pcs[p]);
    if step.Publish? {
      PublishKeepsStrict(s.files.projects, s.pcs[p].record);
    }
    WaitersKept(s, s'.files, p);
    OneMoved(s, s', p);
  }

  lemma NextKeepsInv(s: System, step: Step, s': System)
    requires Inv(s) && Next(s, step, s')
    ensures Inv(s')
  {
    match step
    case Arrive(p, token, t) => ArriveOk(s, p, token, t, s');
    case MakeDir(_) => LockStepOk(s, step, s');
    case WriteOwner(_, _, _) => LockStepOk(s, step, s');
    case UnlinkOwner(_) => LockStepOk(s, step, s');
    case RemoveDir(_) => LockStepOk(s, step, s');
    case Check(p) => CheckOk(s, p, s');
    case WriteFile(_) => StagingStepOk(s, step, s');
    case Publish(_) => StagingStepOk(s, step, s');
    case Abandon(_, _) => StagingStepOk(s, step, s');
    case Die(_, _) => StagingStepOk(s, step, s');
    case CheckFails(p) => OneMoved(s, s', p);
    case GiveUp(p) => OneMoved(s, s', p);
    case ReleaseFails(p) => OneMoved(s, s', p);
    case Crash(p) => OneMoved(s, s', p);
  }

  // ---------------------------------------------------------------- runs

  ghost predicate Run(ss: seq<System>, steps: seq<Step>) {
    && |ss| == |steps| + 1 && Init(ss[0])
    && forall i :: 0 <= i < |steps| ==> Next(ss[i], steps[i], ss[i + 1])
  }

  lemma {:induction false} RunKeepsInv(ss: seq<System>, steps: seq<Step>, i: nat)
    requires Run(ss, steps) && i < |ss|
    ensures Inv(ss[i])
  {
    if i > 0 {
      RunKeepsInv(ss, steps, i - 1);
      NextKeepsInv(ss[i - 1], steps[i - 1], ss[i]);
    }
  }

  /** At most one process is past the lock, and the lock directory is then its own. */
  lemma OneOwner(ss: seq<System>, steps: seq<Step>, i: nat, p: Pid, q: Pid)
    requires Run(ss, steps) && i < |ss| && p in ss[i].pcs && q in ss[i].pcs
    requires Owner(ss[i].pcs[p]) && Owner(ss[i].pcs[q])
    ensures p == q && ss[i].files.lock.LockDir?
    ensures ss[i].pcs[p].Inside? || ss[i].pcs[p].Staging? || ss[i].pcs[p].Releasing? ==>
              ss[i].files.lock == LockDir(Some(ss[i].pcs[p].token))
  {
    RunKeepsInv(ss, steps, i);
    assert PcOk(ss[i].files, ss[i].pcs[p]);
  }

  /** Project directories never disagree: in every state, locked or not, after any crash or failure,
      ids, ports and subnets are pairwise distinct and every record is bound to its directory. */
  lemma ProjectsAlwaysStrict(ss: seq<System>, steps: seq<Step>, i: nat)
    requires Run(ss, steps) && i < |ss|
    ensures StrictProjects(ss[i].files.projects)
  {
    RunKeepsInv(ss, steps, i);
  }

  lemma OrderedNext(files: set<StagedFile>)
    requires OrderedLeaf(files)
    ensures OrderedLeaf(files + {NextFile(files)})
  {
  }

  /** A cleanup that fails, or that its process does not survive, on files the inventory refuses. */
  predicate LeavesScraps(step: Step) {
    (step.Abandon? || step.Die?) && step.left.Some? && !OrderedLeaf(step.left.value)
  }

  /** One step turns an accepted inventory into a refused one exactly when a cleanup is cut short and
      leaves files that are not whole or not in the order they were written in. */
  lemma StrictLostExactly(ss: seq<System>, steps: seq<Step>, i: nat)
    requires Run(ss, steps) && i < |steps| && Strict(ss[i].files)
    ensures Strict(ss[i + 1].files) <==> !LeavesScraps(steps[i])
  {
    RunKeepsInv(ss, steps, i);
    RunKeepsInv(ss, steps, i + 1);
    assert Next(ss[i], steps[i], ss[i + 1]);
    var f, f' := ss[i].files, ss[i + 1].files;
    match steps[i]
    case WriteFile(p) => OrderedNext(f.staging[ss[i].pcs[p].leaf]);
    case Abandon(p, Some(rest)) => assert f'.staging[ss[i].pcs[p].leaf] == rest;
    case Die(p, Some(rest)) => assert f'.staging[ss[i].pcs[p].leaf] == rest;
    case _ =>
  }

  /** So in every state of every run, locked or not, the strict inventory accepts exactly when no step
      so far left such files. */
  lemma {:induction false} AlwaysStrictExactly(ss: seq<System>, steps: seq<Step>, i: nat)
    requires Run(ss, steps) && i < |ss|
    ensures Strict(ss[i].files) <==> forall k :: 0 <= k < i ==> !LeavesScraps(steps[k])
  {
    if k: nat :| k < i && LeavesScraps(steps[k]) {
      ScrapsStay(ss, steps, k, i);
    } else if i > 0 {
      AlwaysStrictExactly(ss, steps, i - 1);
      StrictLostExactly(ss, steps, i - 1);
    }
  }

  lemma ScrapsStay(ss: seq<System>, steps: seq<Step>, k: nat, i: nat)
    requires Run(ss, steps) && k < i < |ss| && LeavesScraps(steps[k])
    ensures !Strict(ss[i].files)
  {
    ScrapsSpoil(ss, steps, k);
    SpoiledLeafIsForever(ss, steps, k + 1, i, ss[k].pcs[steps[k].p].leaf);
  }

  /** While nobody holds the lock it refuses exactly when a failed scaffold could not be cleaned up: a
      process that dies with the leaf leaves the lock behind as well. */
  lemma UnlockedStrictExactly(ss: seq<System>, steps: seq<Step>, i: nat)
    requires Run(ss, steps) && i < |ss| && ss[i].files.lock.NoLock?
    ensures Strict(ss[i].files) <==> forall k :: 0 <= k < i ==> !(LeavesScraps(steps[k]) && steps[k].Abandon?)
  {
    AlwaysStrictExactly(ss, steps, i);
    forall k | 0 <= k < i && LeavesScraps(steps[k]) ensures steps[k].Abandon? {
      if steps[k].Die? {
        assert Next(ss[k], steps[k], ss[k + 1]) && Owner(ss[k].pcs[steps[k].p]);
        OrphanedExactly(ss, steps, k);
        OrphanedLockIsForever(ss, steps, k + 1, i);
      }
    }
  }

  /** The release finds its own token: it is never refused, and fails only with the disk. */
  lemma ReleaseFindsItsToken(ss: seq<System>, steps: seq<Step>, i: nat)
    requires Run(ss, steps) && i < |steps| && steps[i].UnlinkOwner?
    ensures ss[i + 1].pcs == ss[i].pcs[steps[i].p := Unlinked(ss[i].pcs[steps[i].p].token)]
    ensures ss[i + 1].files.lock == LockDir(None)
  {
    RunKeepsInv(ss, steps, i);
    assert Next(ss[i], steps[i], ss[i + 1]) && PcOk(ss[i].files, ss[i].pcs[steps[i].p]);
  }

  // ---------------------------------------------------------------- fail closed

  /** A leaf nobody is staging that the inventory refuses. */
  ghost predicate Spoiled(s: System, leaf: string) {
    && leaf in s.files.staging && !OrderedLeaf(s.files.staging[leaf])
    && forall p :: p in s.pcs ==> !s.pcs[p].Staging?
  }

  /** From then on no project is ever created or changed. */
  lemma {:induction false} SpoiledLeafIsForever(ss: seq<System>, steps: seq<Step>, i: nat, j: nat, leaf: string)
    requires Run(ss, steps) && i <= j < |ss| && Spoiled(ss[i], leaf)
    ensures Spoiled(ss[j], leaf) && ss[j].files.projects == ss[i].files.projects
    decreases j - i
  {
    if i < j {
      SpoiledLeafIsForever(ss, steps, i, j - 1, leaf);
      assert Next(ss[j - 1], steps[j - 1], ss[j]);
    }
  }

  /** A cleanup cut short on such files gets there. */
  lemma ScrapsSpoil(ss: seq<System>, steps: seq<Step>, i: nat)
    requires Run(ss, steps) && i < |steps| && LeavesScraps(steps[i])
    ensures Spoiled(ss[i + 1], ss[i].pcs[steps[i].p].leaf)
  {
    RunKeepsInv(ss, steps, i);
    assert Next(ss[i], steps[i], ss[i + 1]);
  }

  /** A lock that no process will release. */
  ghost predicate Orphaned(s: System) {
    s.files.lock.LockDir? && forall p :: p in s.pcs ==> !Owner(s.pcs[p])
  }

  /** The ways there: past the lock a process dies, cannot release, or cannot take back a lock it could
      not sign. */
  ghost predicate Orphans(s: System, step: Step) {
    || step.Die? || step.ReleaseFails? || (step.Crash? && step.p in s.pcs && Owner(s.pcs[step.p]))
    || (step.WriteOwner? && !step.ok && !step.cleaned)
  }

  lemma OrphanedExactly(ss: seq<System>, steps: seq<Step>, i: nat)
    requires Run(ss, steps) && i < |steps| && !Orphaned(ss[i])
    ensures Orphaned(ss[i + 1]) <==> Orphans(ss[i], steps[i])
  {
    RunKeepsInv(ss, steps, i);
    assert Next(ss[i], steps[i], ss[i + 1]);
    StepOrphans(ss[i], steps[i], ss[i + 1]);
  }

  lemma StepOrphans(s: System, step: Step, s': System)
    requires Inv(s) && Next(s, step, s') && !Orphaned(s)
    ensures Orphaned(s') <==> Orphans(s, step)
  {
    if s.files.lock.LockDir? { HeldLockOrphans(s, step, s'); } else { FreeLockOrphans(s, step, s'); }
  }

  lemma FreeLockOrphans(s: System, step: Step, s': System)
    requires Inv(s) && Next(s, step, s') && s.files.lock.NoLock?
    ensures !Orphaned(s') && !Orphans(s, step)
  {
    assert step.p in s.pcs ==> PcOk(s.files, s.pcs[step.p]);
    assert step.p in s'.pcs && Owner(s'.pcs[step.p]) ==> !Orphaned(s');
  }

  lemma HeldLockOrphans(s: System, step: Step, s': System)
    requires Inv(s) && Next(s, step, s') && s.files.lock.LockDir? && !Orphaned(s)
    ensures Orphaned(s') <==> Orphans(s, step)
  {
    var p := step.p;
    var q :| q in s.pcs && Owner(s.pcs[q]);
    if q != p {
      assert q in s'.pcs && s'.pcs[q] == s.pcs[q] && !Orphaned(s');
      assert p in s.pcs ==> !Owner(s.pcs[p]);
    } else {
      OwnerStepOrphans(s, step, s');
    }
  }

  lemma OwnerStepOrphans(s: System, step: Step, s': System)
    requires Inv(s) && Next(s, step, s') && s.files.lock.LockDir? && step.p in s.pcs && Owner(s.pcs[step.p])
    ensures Orphaned(s') <==> Orphans(s, step)
  {
    var p := step.p;
    assert PcOk(s.files, s.pcs[p]);
    assert p in s'.pcs && Owner(s'.pcs[p]) ==> !Orphaned(s');
  }

  /** Nothing changes any more. */
  lemma {:induction false} OrphanedLockIsForever(ss: seq<System>, steps: seq<Step>, i: nat, j: nat)
    requires Run(ss, steps) && i <= j < |ss| && Orphaned(ss[i])
    ensures Orphaned(ss[j]) && ss[j].files == ss[i].files
    decreases j - i
  {
    if i < j {
      OrphanedLockIsForever(ss, steps, i, j - 1);
      assert Next(ss[j - 1], steps[j - 1], ss[j]);
    }
  }
}
