/** What creates and saves leave in the projects: traced to the request they came in with and to the store
    they were checked against. */
module ProjectStoreEffects {
  import opened Options
  import opened ProjectStore
  import opened ProjectStoreSafety
  import Slug

  // ---------------------------------------------------------------- the inventory in plain terms

  /** A leaf is accepted at the five stages of a scaffold and at no other. */
  lemma LeafAcceptedExactly(files: set<StagedFile>)
    ensures OrderedLeaf(files) <==>
              || files == {}
              || files == {EnvFile}
              || files == {EnvFile, BindingFile}
              || files == {EnvFile, BindingFile, ComposeFile}
              || files == {EnvFile, BindingFile, ComposeFile, ManifestFile}
  {
    assert forall x :: x in files ==>
                         x == EnvFile || x == BindingFile || x == ComposeFile || x == ManifestFile || x == Scrap;
    if OrderedLeaf(files) {
      if ManifestFile in files {
        assert files == {EnvFile, BindingFile, ComposeFile, ManifestFile};
      } else if ComposeFile in files {
        assert files == {EnvFile, BindingFile, ComposeFile};
      } else if BindingFile in files {
        assert files == {EnvFile, BindingFile};
      } else if EnvFile in files {
        assert files == {EnvFile};
      } else {
        assert files == {};
      }
    }
  }

  /** Whether a record may lie in a directory, and two records in one store. */
  predicate Plain(d: string, r: Record) {
    && r.id != "" && r.slug == d && Slug.Valid(d) && 1024 <= r.port && r.port < 65536
    && (r.subnet == None || r.subnet.value in PROJECT_NETWORK_POOL)
  }

  predicate Different(r: Record, q: Record) {
    Slug.Lower(r.id) != Slug.Lower(q.id) && r.port != q.port && (r.subnet == None || r.subnet != q.subnet)
  }

  /** The strict inventory accepts exactly the stores of plain records, different two by two, in which every
      staged leaf is one of the five. */
  lemma StrictExactly(f: Files)
    ensures Strict(f) <==>
              && (forall d :: d in f.projects ==> Plain(d, f.projects[d]))
              && (forall d, e :: d in f.projects && e in f.projects && d != e ==>
                                   Different(f.projects[d], f.projects[e]))
              && (forall l :: l in f.staging ==>
                    f.staging[l] in [{}, {EnvFile}, {EnvFile, BindingFile}, {EnvFile, BindingFile, ComposeFile},
                                     {EnvFile, BindingFile, ComposeFile, ManifestFile}])
  {
    forall l | l in f.staging { LeafAcceptedExactly(f.staging[l]); }
    assert forall r, q :: Different(r, q) <==> !Clash(r, q);
    assert forall d, r :: Plain(d, r) <==> ValidRecord(d, r);
  }

  /** What any project of any reachable state is, alone and beside another one. */
  lemma ProjectsInPlainTerms(ss: seq<System>, steps: seq<Step>, i: nat, d: string, e: string)
    requires Run(ss, steps) && i < |ss| && d in ss[i].files.projects && e in ss[i].files.projects
    ensures Plain(d, ss[i].files.projects[d])
    ensures d != e ==> Different(ss[i].files.projects[d], ss[i].files.projects[e])
  {
    ProjectsAlwaysStrict(ss, steps, i);
    var projects := ss[i].files.projects;
    assert ValidRecord(d, projects[d]);
    assert Clash(projects[d], projects[e]) ==> d == e;
  }

  // ---------------------------------------------------------------- what a check lets through

  predicate Held(projects: map<string, Record>, subnet: string) {
    exists d <- projects :: projects[d].subnet == Some(subnet)
  }

  /** The pool's first subnet that no project has. */
  predicate NextSubnet(projects: map<string, Record>, subnet: string) {
    && !Held(projects, subnet)
    && exists n: nat :: n < |PROJECT_NETWORK_POOL| && PROJECT_NETWORK_POOL[n] == subnet
                        && forall m :: 0 <= m < n ==> Held(projects, PROJECT_NETWORK_POOL[m])
  }

  lemma {:induction false} FirstFreeAt(pool: seq<string>, taken: set<string>) returns (n: nat)
    requires FirstFree(pool, taken).Some?
    ensures n < |pool| && FirstFree(pool, taken) == Some(pool[n]) && pool[n] !in taken
    ensures forall m :: 0 <= m < n ==> pool[m] in taken
  {
    if pool[0] !in taken {
      n := 0;
    } else {
      n := FirstFreeAt(pool[1..], taken);
      n := n + 1;
    }
  }

  /** A create is prepared exactly on an unused port and directory while the pool has a subnet nobody holds,
      and then the record is the request's own, with the first such subnet. */
  lemma PreparedExactly(f: Files, t: Transaction)
    requires t.Create?
    ensures Prepared(f, t).Some? <==>
              && t.slug !in f.projects && (forall d :: d in f.projects ==> f.projects[d].port != t.port)
              && exists s :: s in PROJECT_NETWORK_POOL && !Held(f.projects, s)
    ensures Prepared(f, t).Some? ==>
              var r := Prepared(f, t).value;
              && r.id == t.id && r.slug == t.slug && r.port == t.port && r.body == t.body
              && r.subnet.Some? && NextSubnet(f.projects, r.subnet.value)
  {
    var taken := Taken(f.projects);
    assert forall s :: s in taken <==> Held(f.projects, s);
    var free := FirstFree(PROJECT_NETWORK_POOL, taken);
    if free.Some? {
      var n := FirstFreeAt(PROJECT_NETWORK_POOL, taken);
      assert NextSubnet(f.projects, free.value);
    }
  }

  /** The request leaves the saved project its identity and network, on a valid port nobody else has. */
  predicate Fits(f: Files, slug: string, r: Record) {
    && slug in f.projects
    && var was := f.projects[slug];
       r.id == was.id && r.slug == was.slug && r.subnet == was.subnet
       && 1024 <= r.port && r.port < 65536
       && (forall d <- f.projects :: d == slug || f.projects[d].port != r.port)
  }

  /** What a check inside the lock does, in any run: a create goes on to its staging area exactly when the
      store is sound and the request fits it, a save happens at once under the like condition, and any other
      request is turned away with the files as they are. */
  lemma CheckDecides(ss: seq<System>, steps: seq<Step>, i: nat, p: Pid)
    requires Run(ss, steps) && i < |steps| && steps[i] == Check(p)
    ensures p in ss[i].pcs && ss[i].pcs[p].Inside? && p in ss[i + 1].pcs
    ensures var f, t, f', pc' := ss[i].files, ss[i].pcs[p].t, ss[i + 1].files, ss[i + 1].pcs[p];
            if t.Create? then
              && (pc'.Staging? <==>
                    && Strict(f) && t.slug !in f.projects
                    && (forall d :: d in f.projects ==> f.projects[d].port != t.port)
                    && exists s :: s in PROJECT_NETWORK_POOL && !Held(f.projects, s))
              && (pc'.Staging? ==>
                    && t.leaf !in f.staging && pc'.leaf == t.leaf && f' == f.(staging := f.staging[t.leaf := {}])
                    && pc'.record.id == t.id && pc'.record.slug == t.slug && pc'.record.port == t.port
                    && pc'.record.body == t.body
                    && pc'.record.subnet.Some? && NextSubnet(f.projects, pc'.record.subnet.value))
              && (!pc'.Staging? ==> pc' == Releasing(ss[i].pcs[p].token) && f' == f)
            else
              && pc' == Releasing(ss[i].pcs[p].token)
              && f' == if Strict(f) && Fits(f, t.slug, t.record)
                       then f.(projects := f.projects[t.slug := t.record]) else f
  {
    assert Next(ss[i], steps[i], ss[i + 1]);
    var f, t := ss[i].files, ss[i].pcs[p].t;
    RunKeepsInv(ss, steps, i);
    assert PcOk(f, ss[i].pcs[p]);
    if t.Create? {
      PreparedExactly(f, t);
    } else {
      assert Saveable(f, t) <==> Fits(f, t.slug, t.record);
    }
  }

  // ---------------------------------------------------------------- where a process came from

  /** A process that has a transaction arrived with it. */
  lemma {:induction false} ArrivedWith(ss: seq<System>, steps: seq<Step>, i: nat, p: Pid) returns (j: nat)
    requires Run(ss, steps) && i < |ss| && p in ss[i].pcs
    requires ss[i].pcs[p].Waiting? || ss[i].pcs[p].MadeDir? || ss[i].pcs[p].Inside?
    ensures j < i && steps[j] == Arrive(p, ss[i].pcs[p].token, ss[i].pcs[p].t)
  {
    assert i > 0;
    assert Next(ss[i - 1], steps[i - 1], ss[i]);
    if steps[i - 1] == Arrive(p, ss[i].pcs[p].token, ss[i].pcs[p].t) {
      j := i - 1;
    } else {
      j := ArrivedWith(ss, steps, i - 1, p);
    }
  }

  /** While a process stages, the projects are those its check saw, and its leaf is a whole stage. */
  lemma {:induction false} CheckedAt(ss: seq<System>, steps: seq<Step>, i: nat, p: Pid) returns (k: nat)
    requires Run(ss, steps) && i < |ss| && p in ss[i].pcs && ss[i].pcs[p].Staging?
    ensures k < i && steps[k] == Check(p) && p in ss[k].pcs && p in ss[k + 1].pcs
    ensures ss[k + 1].pcs[p] == ss[i].pcs[p] && ss[k].files.projects == ss[i].files.projects
    ensures ss[i].pcs[p].leaf in ss[i].files.staging && OrderedLeaf(ss[i].files.staging[ss[i].pcs[p].leaf])
  {
    SomethingCameBefore(ss, steps, i, p);
    if steps[i - 1] == Check(p) {
      k := i - 1;
      CheckedNow(ss, steps, k, p);
    } else {
      StagedBefore(ss, steps, i - 1, p);
      k := CheckedAt(ss, steps, i - 1, p);
    }
  }

  lemma CheckedNow(ss: seq<System>, steps: seq<Step>, k: nat, p: Pid)
    requires Run(ss, steps) && k < |steps| && steps[k] == Check(p) && p in ss[k + 1].pcs && ss[k + 1].pcs[p].Staging?
    ensures p in ss[k].pcs && ss[k].files.projects == ss[k + 1].files.projects
    ensures ss[k + 1].pcs[p].leaf in ss[k + 1].files.staging
    ensures OrderedLeaf(ss[k + 1].files.staging[ss[k + 1].pcs[p].leaf])
  {
    CheckDecides(ss, steps, k, p);
  }

  lemma SomethingCameBefore(ss: seq<System>, steps: seq<Step>, i: nat, p: Pid)
    requires Run(ss, steps) && i < |ss| && p in ss[i].pcs
    ensures i > 0
  {
  }

  /** A process that stages after a step other than its check was staging before it, on the same projects, and its
      leaf stays a whole stage. */
  lemma StagedBefore(ss: seq<System>, steps: seq<Step>, i: nat, p: Pid)
    requires Run(ss, steps) && i < |steps| && steps[i] != Check(p) && p in ss[i + 1].pcs && ss[i + 1].pcs[p].Staging?
    ensures p in ss[i].pcs && ss[i].pcs[p] == ss[i + 1].pcs[p]
    ensures ss[i + 1].files.projects == ss[i].files.projects
    ensures var leaf := ss[i].pcs[p].leaf;
            leaf in ss[i].files.staging && OrderedLeaf(ss[i].files.staging[leaf]) ==>
              leaf in ss[i + 1].files.staging && OrderedLeaf(ss[i + 1].files.staging[leaf])
  {
    assert Next(ss[i], steps[i], ss[i + 1]);
    RunKeepsInv(ss, steps, i);
    OthersKeepOut(ss[i], steps[i], ss[i + 1], p);
    var leaf := ss[i].pcs[p].leaf;
    if steps[i] == WriteFile(p) && OrderedLeaf(ss[i].files.staging[leaf]) {
      OrderedNext(ss[i].files.staging[leaf]);
    }
  }

  /** Nobody else changes the projects, or the leaf, of a process that stages. */
  lemma OthersKeepOut(s: System, step: Step, s': System, p: Pid)
    requires Inv(s) && Next(s, step, s') && p in s.pcs && p in s'.pcs && s.pcs[p].Staging? && s'.pcs[p].Staging?
    ensures s'.files.projects == s.files.projects
    ensures step != WriteFile(p) && s.pcs[p].leaf in s.files.staging ==>
              s.pcs[p].leaf in s'.files.staging
              && s'.files.staging[s.pcs[p].leaf] == s.files.staging[s.pcs[p].leaf]
  {
    assert Owner(s.pcs[p]);
    assert step.p != p && step.p in s.pcs ==> !Owner(s.pcs[step.p]);
  }

  // ---------------------------------------------------------------- how the projects change

  /** A project that appears was asked for: a process arrived with this very id, directory, port and content, was
      checked, and the subnet is the first of the pool that no project has at the moment it appears.  Its four
      files are all written by then, and every other project stands. */
  lemma CreatedAsAsked(ss: seq<System>, steps: seq<Step>, i: nat, d: string) returns (j: nat, k: nat)
    requires Run(ss, steps) && i < |steps|
    requires d !in ss[i].files.projects && d in ss[i + 1].files.projects
    ensures j < k < i && steps[i].Publish? && steps[k] == Check(steps[i].p)
    ensures steps[j].Arrive? && steps[j].p == steps[i].p && steps[j].t.Create? && steps[j].t.slug == d
    ensures var t, f, r := steps[j].t, ss[i].files, ss[i + 1].files.projects[d];
            && r.id == t.id && r.slug == t.slug && r.port == t.port && r.body == t.body
            && r.subnet.Some? && NextSubnet(f.projects, r.subnet.value)
            && ss[i + 1].files.projects == f.projects[d := r]
            && t.leaf in f.staging && f.staging[t.leaf] == {EnvFile, BindingFile, ComposeFile, ManifestFile}
            && ss[i + 1].files.staging == f.staging - {t.leaf}
  {
    var p := steps[i].p;
    assert Next(ss[i], steps[i], ss[i + 1]);
    if steps[i] == Check(p) { CheckDecides(ss, steps, i, p); }
    assert steps[i] == Publish(p);
    k := CheckedAt(ss, steps, i, p);
    CheckDecides(ss, steps, k, p);
    j := ArrivedWith(ss, steps, k, p);
    LeafAcceptedExactly(ss[i].files.staging[ss[i].pcs[p].leaf]);
  }

  /** A project that changes was saved: a process arrived with this very record, its identity and subnet are the
      old ones, its port is valid and no other project's, and nothing else changes. */
  lemma SavedAsAsked(ss: seq<System>, steps: seq<Step>, i: nat, d: string) returns (j: nat)
    requires Run(ss, steps) && i < |steps| && d in ss[i].files.projects && d in ss[i + 1].files.projects
    requires ss[i].files.projects[d] != ss[i + 1].files.projects[d]
    ensures j < i && steps[i].Check? && steps[j].Arrive? && steps[j].p == steps[i].p
    ensures steps[j].t == Save(d, ss[i + 1].files.projects[d])
    ensures Strict(ss[i].files) && Fits(ss[i].files, d, ss[i + 1].files.projects[d])
    ensures ss[i + 1].files.projects == ss[i].files.projects[d := ss[i + 1].files.projects[d]]
    ensures ss[i + 1].files.staging == ss[i].files.staging && ss[i + 1].files.lock == ss[i].files.lock
  {
    var p := steps[i].p;
    assert Next(ss[i], steps[i], ss[i + 1]);
    RunKeepsInv(ss, steps, i);
    assert p in ss[i].pcs ==> PcOk(ss[i].files, ss[i].pcs[p]);
    CheckDecides(ss, steps, i, p);
    j := ArrivedWith(ss, steps, i, p);
  }

  /** No project ever goes away. */
  lemma {:induction false} ProjectsStay(ss: seq<System>, steps: seq<Step>, i: nat, j: nat, d: string)
    requires Run(ss, steps) && i <= j < |ss| && d in ss[i].files.projects
    ensures d in ss[j].files.projects && ss[j].files.projects[d].id == ss[i].files.projects[d].id
    ensures ss[j].files.projects[d].subnet == ss[i].files.projects[d].subnet
  {
    if i < j {
      ProjectsStay(ss, steps, i, j - 1, d);
      assert Next(ss[j - 1], steps[j - 1], ss[j]);
      if ss[j].files.projects[d] != ss[j - 1].files.projects[d] {
        var _ := SavedAsAsked(ss, steps, j - 1, d);
      }
    }
  }

  // ---------------------------------------------------------------- a create and a save that go through

  ghost predicate Trace(ss: seq<System>, steps: seq<Step>) {
    |ss| == |steps| + 1 && forall i :: 0 <= i < |steps| ==> Next(ss[i], steps[i], ss[i + 1])
  }

  lemma Onward(ss: seq<System>, steps: seq<Step>, step: Step, s: System) returns (ss': seq<System>, steps': seq<Step>)
    requires Trace(ss, steps) && Next(ss[|ss| - 1], step, s)
    ensures ss' == ss + [s] && steps' == steps + [step] && Trace(ss', steps') && ss'[|ss'| - 1] == s && ss'[0] == ss[0]
  {
    ss', steps' := ss + [s], steps + [step];
    forall i | 0 <= i < |steps'| ensures Next(ss'[i], steps'[i], ss'[i + 1]) {
      assert i < |steps| ==> ss'[i] == ss[i] && ss'[i + 1] == ss[i + 1] && steps'[i] == steps[i];
    }
  }

  /** A newcomer can take a free lock. */
  lemma Enters(s: System, p: Pid, token: string, t: Transaction) returns (ss: seq<System>, steps: seq<Step>)
    requires p !in s.pcs && s.files.lock.NoLock? && Fresh(s, token, t)
    ensures Trace(ss, steps) && ss[0] == s && forall i :: 0 <= i < |steps| ==> steps[i].p == p
    ensures ss[|ss| - 1] == System(s.files.(lock := LockDir(Some(token))), s.pcs[p := Inside(token, t)])
  {
    var f := s.files;
    var s1 := Moved(s, f, p, Waiting(token, t));
    var s2 := Moved(s1, f.(lock := LockDir(None)), p, MadeDir(token, t));
    var s3 := Moved(s2, f.(lock := LockDir(Some(token))), p, Inside(token, t));
    ss, steps := Onward([s], [], Arrive(p, token, t), s1);
    ss, steps := Onward(ss, steps, MakeDir(p), s2);
    ss, steps := Onward(ss, steps, WriteOwner(p, true, true), s3);
    assert s3.pcs == s.pcs[p := Inside(token, t)];
  }

  /** And give it back. */
  lemma Leaves(ss: seq<System>, steps: seq<Step>, p: Pid, token: string, pcs: map<Pid, Pc>)
    returns (ss': seq<System>, steps': seq<Step>)
    requires Trace(ss, steps) && p !in pcs && ss[|ss| - 1].pcs == pcs[p := Releasing(token)]
    requires ss[|ss| - 1].files.lock == LockDir(Some(token)) && forall i :: 0 <= i < |steps| ==> steps[i].p == p
    ensures Trace(ss', steps') && ss'[0] == ss[0] && forall i :: 0 <= i < |steps'| ==> steps'[i].p == p
    ensures ss'[|ss'| - 1] == System(ss[|ss| - 1].files.(lock := NoLock), pcs)
  {
    var s := ss[|ss| - 1];
    var s1 := Moved(s, s.files.(lock := LockDir(None)), p, Unlinked(token));
    var s2 := Left(s1, s1.files.(lock := NoLock), p);
    ss', steps' := Onward(ss, steps, UnlinkOwner(p), s1);
    ss', steps' := Onward(ss', steps', RemoveDir(p), s2);
    assert s2.pcs == pcs;
  }

  function WithLeaf(s: System, leaf: string, files: set<StagedFile>): System {
    s.(files := s.files.(staging := s.files.staging[leaf := files]))
  }

  lemma OneWrite(ss: seq<System>, steps: seq<Step>, p: Pid, s: System, files: set<StagedFile>, next: set<StagedFile>)
    returns (ss': seq<System>, steps': seq<Step>)
    requires StagingAt(s, p) && next == files + {NextFile(files)}
    requires Trace(ss, steps) && ss[|ss| - 1] == WithLeaf(s, s.pcs[p].leaf, files)
    requires forall i :: 0 <= i < |steps| ==> steps[i].p == p
    ensures Trace(ss', steps') && ss'[0] == ss[0] && ss'[|ss'| - 1] == WithLeaf(s, s.pcs[p].leaf, next)
    ensures forall i :: 0 <= i < |steps'| ==> steps'[i].p == p
  {
    var leaf, staging := s.pcs[p].leaf, s.files.staging;
    assert staging[leaf := files][leaf := next] == staging[leaf := next];
    ss', steps' := Onward(ss, steps, WriteFile(p), WithLeaf(s, leaf, next));
  }

  /** Four writes complete a scaffold. */
  lemma Writes(ss: seq<System>, steps: seq<Step>, p: Pid) returns (ss': seq<System>, steps': seq<Step>)
    requires Trace(ss, steps) && StagingAt(ss[|ss| - 1], p) && forall i :: 0 <= i < |steps| ==> steps[i].p == p
    requires ss[|ss| - 1].files.staging[ss[|ss| - 1].pcs[p].leaf] == {}
    ensures Trace(ss', steps') && ss'[0] == ss[0] && forall i :: 0 <= i < |steps'| ==> steps'[i].p == p
    ensures ss'[|ss'| - 1] == WithLeaf(ss[|ss| - 1], ss[|ss| - 1].pcs[p].leaf,
                                       {EnvFile, BindingFile, ComposeFile, ManifestFile})
  {
    var s := ss[|ss| - 1];
    assert s.files.staging[s.pcs[p].leaf := {}] == s.files.staging;
    var three := {EnvFile, BindingFile, ComposeFile};
    ss', steps' := OneWrite(ss, steps, p, s, {}, {EnvFile});
    ss', steps' := OneWrite(ss', steps', p, s, {EnvFile}, {EnvFile, BindingFile});
    ss', steps' := OneWrite(ss', steps', p, s, {EnvFile, BindingFile}, three);
    ss', steps' := OneWrite(ss', steps', p, s, three, {EnvFile, BindingFile, ComposeFile, ManifestFile});
  }

  /** Inside the lock, a prepared create goes on to its full leaf. */
  lemma Stages(ss: seq<System>, steps: seq<Step>, p: Pid, pcs: map<Pid, Pc>, token: string, t: Transaction, r: Record)
    returns (ss': seq<System>, steps': seq<Step>)
    requires Trace(ss, steps) && forall i :: 0 <= i < |steps| ==> steps[i].p == p
    requires ss[|ss| - 1].pcs == pcs[p := Inside(token, t)] && t.Create?
    requires Strict(ss[|ss| - 1].files) && Prepared(ss[|ss| - 1].files, t) == Some(r)
    ensures Trace(ss', steps') && ss'[0] == ss[0] && forall i :: 0 <= i < |steps'| ==> steps'[i].p == p
    ensures var f := ss[|ss| - 1].files;
            ss'[|ss'| - 1] == System(f.(staging := f.staging[t.leaf :=
                                        {EnvFile, BindingFile, ComposeFile, ManifestFile}]),
                                     pcs[p := Staging(token, r, t.leaf)])
  {
    var s := ss[|ss| - 1];
    var staged := Moved(s, s.files.(staging := s.files.staging[t.leaf := {}]), p, Staging(token, r, t.leaf));
    assert staged.pcs == pcs[p := Staging(token, r, t.leaf)];
    ss', steps' := Onward(ss, steps, Check(p), staged);
    ss', steps' := Writes(ss', steps', p);
    var all := {EnvFile, BindingFile, ComposeFile, ManifestFile};
    assert staged.files.staging[t.leaf := all] == s.files.staging[t.leaf := all];
  }

  /** A full leaf is renamed into place. */
  lemma Publishes(ss: seq<System>, steps: seq<Step>, p: Pid, pcs: map<Pid, Pc>,
                  staging: map<string, set<StagedFile>>, token: string, r: Record, leaf: string)
    returns (ss': seq<System>, steps': seq<Step>)
    requires Trace(ss, steps) && leaf !in staging && forall i :: 0 <= i < |steps| ==> steps[i].p == p
    requires ss[|ss| - 1].pcs == pcs[p := Staging(token, r, leaf)]
    requires ss[|ss| - 1].files.staging == staging[leaf := {EnvFile, BindingFile, ComposeFile, ManifestFile}]
    ensures Trace(ss', steps') && ss'[0] == ss[0] && forall i :: 0 <= i < |steps'| ==> steps'[i].p == p
    ensures var f := ss[|ss| - 1].files;
            ss'[|ss'| - 1] == System(f.(projects := f.projects[r.slug := r], staging := staging),
                                     pcs[p := Releasing(token)])
  {
    var s := ss[|ss| - 1];
    var published := System(s.files.(projects := s.files.projects[r.slug := r], staging := staging),
                            pcs[p := Releasing(token)]);
    assert s.files.staging - {leaf} == staging;
    assert s.pcs[p := Releasing(token)] == published.pcs;
    ss', steps' := Onward(ss, steps, Publish(p), published);
  }

  /** From any free, sound store, a create with an unused port and directory goes through while the pool has a
      subnet left: by steps of its own alone, to the store with just its project added and the lock free. */
  lemma CreateGoesThrough(s: System, p: Pid, token: string, t: Transaction)
    returns (ss: seq<System>, steps: seq<Step>, r: Record)
    requires p !in s.pcs && s.files.lock.NoLock? && Strict(s.files) && t.Create?
    requires t.id != "" && Slug.Valid(t.slug) && 1024 <= t.port && t.port < 65536 && t.leaf !in s.files.staging
    requires forall d :: d in s.files.projects ==> Slug.Lower(s.files.projects[d].id) != Slug.Lower(t.id)
    requires forall q :: q in s.pcs ==> 
                 && s.pcs[q].token != token
                 && (HasName(s.pcs[q]) ==>
                       Slug.Lower(NameId(s.pcs[q])) != Slug.Lower(t.id) && NameLeaf(s.pcs[q]) != t.leaf)
    requires t.slug !in s.files.projects && forall d :: d in s.files.projects ==> s.files.projects[d].port != t.port
    requires exists subnet :: subnet in PROJECT_NETWORK_POOL && !Held(s.files.projects, subnet)
    ensures Trace(ss, steps) && ss[0] == s && forall i :: 0 <= i < |steps| ==> steps[i].p == p
    ensures ss[|ss| - 1] == s.(files := s.files.(projects := s.files.projects[t.slug := r]))
    ensures r.id == t.id && r.slug == t.slug && r.port == t.port && r.body == t.body
    ensures r.subnet.Some? && NextSubnet(s.files.projects, r.subnet.value)
  {
    PreparedExactly(s.files, t);
    r := Prepared(s.files, t).value;
    ss, steps := Enters(s, p, token, t);
    assert Prepared(ss[|ss| - 1].files, t) == Some(r);
    ss, steps := Stages(ss, steps, p, s.pcs, token, t, r);
    ss, steps := Publishes(ss, steps, p, s.pcs, s.files.staging, token, r, t.leaf);
    ss, steps := Leaves(ss, steps, p, token, s.pcs);
  }

  /** So does a save that fits. */
  lemma SaveGoesThrough(s: System, p: Pid, token: string, t: Transaction)
    returns (ss: seq<System>, steps: seq<Step>)
    requires p !in s.pcs && s.files.lock.NoLock? && Strict(s.files) && t.Save?
    requires forall q :: q in s.pcs ==> s.pcs[q].token != token
    requires Fits(s.files, t.slug, t.record)
    ensures Trace(ss, steps) && ss[0] == s && forall i :: 0 <= i < |steps| ==> steps[i].p == p
    ensures ss[|ss| - 1] == s.(files := s.files.(projects := s.files.projects[t.slug := t.record]))
  {
    ss, steps := Enters(s, p, token, t);
    var held := s.files.(lock := LockDir(Some(token)));
    var saved := System(held.(projects := s.files.projects[t.slug := t.record]), s.pcs[p := Releasing(token)]);
    assert s.pcs[p := Inside(token, t)][p := Releasing(token)] == saved.pcs;
    assert Strict(held) && Saveable(held, t);
    ss, steps := Onward(ss, steps, Check(p), saved);
    ss, steps := Leaves(ss, steps, p, token, s.pcs);
  }
}
