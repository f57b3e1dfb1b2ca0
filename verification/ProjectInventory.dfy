/** The store's own loops, on the directory they read and change. */
module ProjectInventory {
  import opened Options
  import opened ProjectStore
  import Slug
  import Strings

  /** A directory listing names every entry once. */
  ghost predicate Enumerates(names: seq<string>, entries: set<string>) {
    && (forall n :: n in names <==> n in entries)
    && (forall i, j :: 0 <= i < j < |names| ==> names[i] != names[j])
  }

  datatype Allocation = Invalid | Exhausted | Allocated(subnet: string)

  datatype Outcome =
    | BadRequest | InventoryInvalid | IdentityMismatch | PortConflict | ProjectExists | NoNetwork
    | ScaffoldFailed | CleanupFailed | ManifestWriteFailed | Done

  /** What goes wrong while a scaffold is staged: nothing, or an exception after `written` files, with what
      the cleanup leaves behind when it fails too. */
  datatype Trouble = NoTrouble | Trouble(written: nat, left: Option<set<StagedFile>>)

  predicate PairwiseApart(rs: seq<Record>) {
    forall i, j :: 0 <= i < j < |rs| ==> !Clash(rs[i], rs[j])
  }

  lemma LowerKeepsSlugs(s: string)
    requires Slug.Valid(s)
    ensures Slug.Lower(s) == s
  {
  }

  lemma ClashIsSymmetric(a: Record, b: Record)
    ensures Clash(a, b) == Clash(b, a)
  {
  }

  function Written(count: nat): (files: set<StagedFile>)
    ensures OrderedLeaf(files) && (ManifestFile in files <==> count >= 4)
  {
    if count == 0 then {} else if count == 1 then {EnvFile} else if count == 2 then {EnvFile, BindingFile}
    else if count == 3 then {EnvFile, BindingFile, ComposeFile} else {EnvFile, BindingFile, ComposeFile, ManifestFile}
  }

  function RequestedSlug(name: string, explicitSlug: string): string {
    if explicitSlug != "" then Slug.Lower(Strings.Trim(explicitSlug)) else Slug.Slugify(Strings.Trim(name))
  }

  ghost function CheckOutcome(f: Files, t: Transaction): Outcome
    requires t.Create?
  {
    if !Strict(f) then InventoryInvalid
    else if exists d :: d in f.projects && f.projects[d].port == t.port then PortConflict
    else if t.slug in f.projects then ProjectExists
    else if Prepared(f, t).None? then NoNetwork
    else Done
  }

  function TroubleOutcome(trouble: Trouble): Outcome {
    if trouble.NoTrouble? then Done else if trouble.left.Some? then CleanupFailed else ScaffoldFailed
  }

  ghost function CreateOutcome(f: Files, name: string, t: Transaction, trouble: Trouble): Outcome
    requires t.Create?
  {
    if Strings.Trim(name) == "" || !(1024 <= t.port <= 65535) || !Slug.Valid(t.slug) then BadRequest
    else if CheckOutcome(f, t) != Done then CheckOutcome(f, t)
    else TroubleOutcome(trouble)
  }

  /** Only a finished create shows in the projects; only a failed cleanup shows in the staging area. */
  function CreateFiles(f: Files, outcome: Outcome, t: Transaction, trouble: Trouble): Files
    requires t.Create?
  {
    if outcome == Done && Prepared(f, t).Some? then f.(projects := f.projects[t.slug := Prepared(f, t).value])
    else if outcome == CleanupFailed && trouble.Trouble? && trouble.left.Some?
      then f.(staging := f.staging[t.leaf := trouble.left.value])
    else f
  }

  lemma {:induction false} FirstFreeIs(pool: seq<string>, taken: set<string>, n: nat)
    requires n < |pool| && pool[n] !in taken && forall m :: 0 <= m < n ==> pool[m] in taken
    ensures FirstFree(pool, taken) == Some(pool[n])
  {
    if n > 0 { FirstFreeIs(pool[1..], taken, n - 1); }
  }

  lemma AllocationIsFirstFree(projects: map<string, Record>, dirs: seq<string>, existing: seq<Record>, a: Allocation)
    requires StrictProjects(projects) && Enumerates(dirs, projects.Keys) && |existing| == |dirs|
    requires forall i :: 0 <= i < |dirs| ==> existing[i] == projects[dirs[i]]
    requires AllocationRule(existing, a)
    ensures a == match FirstFree(PROJECT_NETWORK_POOL, Taken(projects))
                 case None => Exhausted
                 case Some(s) => Allocated(s)
  {
    var taken := Taken(projects);
    forall s ensures s in taken <==> exists k :: 0 <= k < |existing| && existing[k].subnet == Some(s) {
      if s in taken {
        var d :| d in projects && projects[d].subnet == Some(s);
        assert d in dirs;
      }
    }
    assert forall j, k :: 0 <= j < k < |existing| ==> !Clash(existing[j], existing[k]);
    assert forall k :: 0 <= k < |existing| ==> ValidRecord(dirs[k], existing[k]);
    if a.Allocated? {
      var n :| 0 <= n < |PROJECT_NETWORK_POOL| && PROJECT_NETWORK_POOL[n] == a.subnet
               && forall m :: 0 <= m < n ==>
                    exists k :: 0 <= k < |existing| && existing[k].subnet == Some(PROJECT_NETWORK_POOL[m]);
      FirstFreeIs(PROJECT_NETWORK_POOL, taken, n);
    }
  }

  function Networks(r: Record): set<string> {
    if r.subnet.Some? then {r.subnet.value} else {}
  }

  predicate Unusable(existing: seq<Record>) {
    || (exists k :: 0 <= k < |existing| && existing[k].subnet.Some?
                    && existing[k].subnet.value !in PROJECT_NETWORK_POOL)
    || (exists j, k :: 0 <= j < k < |existing| && existing[j].subnet.Some? && existing[j].subnet == existing[k].subnet)
  }

  predicate Holds(existing: seq<Record>, subnet: string) {
    exists k :: 0 <= k < |existing| && existing[k].subnet == Some(subnet)
  }

  lemma UnusablePrefix(rs: seq<Record>, n: nat)
    requires n <= |rs| && Unusable(rs[..n])
    ensures Unusable(rs)
  {
    if j, k :| 0 <= j < k < n && rs[..n][j].subnet.Some? && rs[..n][j].subnet == rs[..n][k].subnet {
      assert rs[j].subnet.Some? && rs[j].subnet == rs[k].subnet;
    } else {
      var k :| 0 <= k < n && rs[..n][k].subnet.Some? && rs[..n][k].subnet.value !in PROJECT_NETWORK_POOL;
      assert rs[k].subnet.Some? && rs[k].subnet.value !in PROJECT_NETWORK_POOL;
    }
  }

  /** What one more record adds to the held subnets, and when it makes the records unusable. */
  lemma HoldsNext(rs: seq<Record>, i: nat, held: set<string>)
    requires i < |rs| && !Unusable(rs[..i]) && forall s :: s in held <==> Holds(rs[..i], s)
    ensures forall s :: s in held + Networks(rs[i]) <==> Holds(rs[..i + 1], s)
    ensures Unusable(rs[..i + 1]) <==>
              rs[i].subnet.Some? && (rs[i].subnet.value !in PROJECT_NETWORK_POOL || rs[i].subnet.value in held)
  {
    var before, after := rs[..i], rs[..i + 1];
    assert forall k :: 0 <= k < i ==> before[k] == after[k] == rs[k];
    assert after[i] == rs[i];
    forall s ensures s in held + Networks(rs[i]) <==> Holds(after, s) {
      if Holds(before, s) {
        var k :| 0 <= k < i && before[k].subnet == Some(s);
        assert after[k].subnet == Some(s);
      }
      if Holds(after, s) && rs[i].subnet != Some(s) {
        var k :| 0 <= k < |after| && after[k].subnet == Some(s);
        assert before[k].subnet == Some(s);
      }
    }
  }

  /** The first subnet of the pool that no record holds, unless the records themselves are unusable. */
  ghost predicate AllocationRule(existing: seq<Record>, a: Allocation) {
    && (a.Invalid? <==> Unusable(existing))
    && (a.Exhausted? ==> forall s :: s in PROJECT_NETWORK_POOL ==> Holds(existing, s))
    && (a.Allocated? ==>
          && !Holds(existing, a.subnet)
          && exists n :: 0 <= n < |PROJECT_NETWORK_POOL| && PROJECT_NETWORK_POOL[n] == a.subnet
                         && forall m :: 0 <= m < n ==> Holds(existing, PROJECT_NETWORK_POOL[m]))
  }

  // ---------------------------------------------------------------- the duplicate search

  ghost predicate Seen(rs: seq<Record>, slugs: set<string>, identities: set<string>, ports: set<int>,
                       networks: set<string>) {
    && (forall s :: s in slugs <==> exists r :: r in rs && Slug.Lower(r.slug) == s)
    && (forall s :: s in identities <==> exists r :: r in rs && Slug.Lower(r.id) == s)
    && (forall n :: n in ports <==> exists r :: r in rs && r.port == n)
    && (forall s :: s in networks <==> exists r :: r in rs && r.subnet == Some(s))
  }

  lemma SeenNext(rs: seq<Record>, r: Record, slugs: set<string>, identities: set<string>, ports: set<int>,
                 networks: set<string>)
    requires Seen(rs, slugs, identities, ports, networks)
    ensures Seen(rs + [r], slugs + {Slug.Lower(r.slug)}, identities + {Slug.Lower(r.id)}, ports + {r.port},
                 networks + Networks(r))
  {
    assert r in rs + [r] && forall x :: x in rs + [r] <==> x in rs || x == r;
  }

  lemma ApartNext(rs: seq<Record>, r: Record)
    ensures PairwiseApart(rs + [r]) <==> PairwiseApart(rs) && forall x :: x in rs ==> !Clash(x, r)
  {
    var all := rs + [r];
    if PairwiseApart(all) {
      assert forall i :: 0 <= i < |rs| ==> all[i] == rs[i];
      forall x | x in rs ensures !Clash(x, r) {
        var i :| 0 <= i < |rs| && rs[i] == x;
        assert !Clash(all[i], all[|rs|]);
      }
    }
  }

  lemma ApartPrefix(rs: seq<Record>, n: nat)
    requires n <= |rs|
    ensures PairwiseApart(rs) ==> PairwiseApart(rs[..n])
  {
  }

  lemma NewSlug(rs: seq<Record>, i: nat)
    requires i < |rs| && forall k :: 0 <= k < |rs| ==> Slug.Valid(rs[k].slug)
    requires forall j, k :: 0 <= j < k < |rs| ==> rs[j].slug != rs[k].slug
    ensures forall x :: x in rs[..i] ==> Slug.Lower(x.slug) != Slug.Lower(rs[i].slug)
  {
    forall x | x in rs[..i] ensures Slug.Lower(x.slug) != Slug.Lower(rs[i].slug) {
      LowerKeepsSlugs(x.slug);
      LowerKeepsSlugs(rs[i].slug);
    }
  }

  /** Over a listing, pairwise apart means no clash between two directories. */
  lemma ApartMeansStrict(projects: map<string, Record>, dirs: seq<string>, records: seq<Record>)
    requires Enumerates(dirs, projects.Keys) && |records| == |dirs| && PairwiseApart(records)
    requires forall k :: 0 <= k < |dirs| ==> records[k] == projects[dirs[k]]
    ensures forall d, e :: d in projects && e in projects && Clash(projects[d], projects[e]) ==> d == e
  {
    forall d, e | d in projects && e in projects && Clash(projects[d], projects[e]) ensures d == e {
      assert d in dirs && e in dirs;
      var i :| 0 <= i < |dirs| && dirs[i] == d;
      var j :| 0 <= j < |dirs| && dirs[j] == e;
      ClashIsSymmetric(records[i], records[j]);
    }
  }

  class ProjectsRoot {
    var files: Files
    var projectDirs: seq<string>
    var stagingDirs: seq<string>

    ghost predicate Valid()
      reads this
    {
      Enumerates(projectDirs, files.projects.Keys) && Enumerates(stagingDirs, files.staging.Keys)
    }

    /** Accepts exactly the strict store, and then lists its records. */
    method ReadStrictProjectInventory() returns (inventory: Option<seq<Record>>)
      requires Valid()
      ensures inventory.Some? <==> Strict(files)
      ensures inventory.Some? ==>
                && |inventory.value| == |projectDirs|
                && forall i :: 0 <= i < |projectDirs| ==> inventory.value[i] == files.projects[projectDirs[i]]
    {
      for i := 0 to |stagingDirs|
        invariant forall k :: 0 <= k < i ==> OrderedLeaf(files.staging[stagingDirs[k]])
      {
        if !OrderedLeaf(files.staging[stagingDirs[i]]) { return None; }
      }
      var records: seq<Record> := [];
      for i := 0 to |projectDirs|
        invariant |records| == i
        invariant forall k :: 0 <= k < i ==>
                    records[k] == files.projects[projectDirs[k]] && ValidRecord(projectDirs[k], records[k])
      {
        var r := files.projects[projectDirs[i]];
        if !ValidRecord(projectDirs[i], r) { return None; }
        records := records + [r];
      }
      var apart := AllApart(records);
      if !apart {
        return None;
      }
      ApartMeansStrict(files.projects, projectDirs, records);
      return Some(records);
    }

    /** The duplicate search over slugs, identities, ports and networks, with its five growing sets. */
    method AllApart(records: seq<Record>) returns (apart: bool)
      requires forall k :: 0 <= k < |records| ==> Slug.Valid(records[k].slug)
      requires forall i, j :: 0 <= i < j < |records| ==> records[i].slug != records[j].slug
      ensures apart <==> PairwiseApart(records)
    {
      var slugs: set<string>, identities: set<string>, ports: set<int>, networks: set<string> := {}, {}, {}, {};
      for i := 0 to |records|
        invariant PairwiseApart(records[..i]) && Seen(records[..i], slugs, identities, ports, networks)
      {
        var r := records[i];
        assert records[..i] + [r] == records[..i + 1];
        NewSlug(records, i);
        SeenNext(records[..i], r, slugs, identities, ports, networks);
        ApartNext(records[..i], r);
        if Slug.Lower(r.slug) in slugs || Slug.Lower(r.id) in identities || r.port in ports
           || (r.subnet.Some? && r.subnet.value in networks)
        {
          ApartPrefix(records, i + 1);
          return false;
        }
        slugs, identities, ports := slugs + {Slug.Lower(r.slug)}, identities + {Slug.Lower(r.id)}, ports + {r.port};
        networks := networks + Networks(r);
      }
      assert records[..|records|] == records;
      return true;
    }

    /** The subnets the records hold, unless two hold one or one is not of the pool. */
    static method HeldNetworks(existing: seq<Record>) returns (result: Option<set<string>>)
      ensures result.None? <==> Unusable(existing)
      ensures result.Some? ==> forall s :: s in result.value <==> Holds(existing, s)
    {
      var held: set<string> := {};
      for i := 0 to |existing|
        invariant !Unusable(existing[..i]) && forall s :: s in held <==> Holds(existing[..i], s)
      {
        HoldsNext(existing, i, held);
        if existing[i].subnet.Some? {
          var subnet := existing[i].subnet.value;
          if subnet !in PROJECT_NETWORK_POOL || subnet in held {
            UnusablePrefix(existing, i + 1);
            return None;
          }
          held := held + {subnet};
        }
      }
      assert existing[..|existing|] == existing;
      return Some(held);
    }

    /** The first subnet of the pool that no record holds; two records with one subnet are refused. */
    static method AllocateProjectNetwork(existing: seq<Record>) returns (a: Allocation)
      ensures AllocationRule(existing, a)
    {
      var held := HeldNetworks(existing);
      if held.None? { return Invalid; }
      var free := FindFree(PROJECT_NETWORK_POOL, held.value);
      return if free.Some? then Allocated(PROJECT_NETWORK_POOL[free.value]) else Exhausted;
    }

    /** The search of the pool: the first position that is not held. */
    static method FindFree(pool: seq<string>, held: set<string>) returns (n: Option<nat>)
      ensures n.Some? ==> n.value < |pool| && pool[n.value] !in held && forall m :: 0 <= m < n.value ==> pool[m] in held
      ensures n.None? ==> forall m :: 0 <= m < |pool| ==> pool[m] in held
    {
      for i := 0 to |pool|
        invariant forall m :: 0 <= m < i ==> pool[m] in held
      {
        if pool[i] !in held { return Some(i); }
      }
      return None;
    }

    /** The search for a project with the requested port. */
    method PortTaken(existing: seq<Record>, port: int) returns (taken: bool)
      requires Valid() && |existing| == |projectDirs|
      requires forall i :: 0 <= i < |existing| ==> existing[i] == files.projects[projectDirs[i]]
      ensures taken <==> exists d :: d in files.projects && files.projects[d].port == port
    {
      for i := 0 to |existing|
        invariant forall k :: 0 <= k < i ==> existing[k].port != port
      {
        if existing[i].port == port {
          assert projectDirs[i] in files.projects;
          return true;
        }
      }
      assert forall d :: d in files.projects ==> d in projectDirs;
      return false;
    }

    /** The checks of a create, up to the record it would publish. */
    method PrepareProject(t: Transaction) returns (outcome: Outcome, record: Option<Record>)
      requires Valid() && t.Create?
      ensures record.Some? <==> Strict(files) && Prepared(files, t).Some?
      ensures record.Some? ==> record == Prepared(files, t)
      ensures outcome == CheckOutcome(files, t)
    {
      var inventory := ReadStrictProjectInventory();
      if inventory.None? { return InventoryInvalid, None; }
      var existing := inventory.value;
      var taken := PortTaken(existing, t.port);
      if taken { return PortConflict, None; }
      if t.slug in projectDirs {
        outcome, record := ProjectExists, None;
      } else {
        var allocation := AllocateProjectNetwork(existing);
        AllocationIsFirstFree(files.projects, projectDirs, existing, allocation);
        if allocation.Allocated? {
          outcome, record := Done, Some(Record(t.id, t.slug, t.port, Some(allocation.subnet), t.body));
        } else {
          outcome, record := NoNetwork, None;
        }
      }
    }

    /** Writes the four files in order, or as many as are written before an exception. */
    method StageFiles(leaf: string, trouble: Trouble)
      requires leaf !in files.staging
      modifies `files
      ensures var count := if trouble.NoTrouble? then 4 else trouble.written;
              files == old(files).(staging := old(files).staging[leaf := Written(count)])
    {
      files := files.(staging := files.staging[leaf := {}]);
      var i := 0;
      while i < 4 && !(trouble.Trouble? && trouble.written <= i)
        invariant 0 <= i <= 4 && (trouble.Trouble? ==> i <= trouble.written)
        invariant files == old(files).(staging := old(files).staging[leaf := Written(i)])
      {
        assert files.staging[leaf] == Written(i) && Written(i) + {NextFile(Written(i))} == Written(i + 1);
        files := files.(staging := files.staging[leaf := files.staging[leaf] + {NextFile(files.staging[leaf])}]);
        i := i + 1;
      }
    }

    /** Stages the files and renames the result into place, or cleans up after an exception. */
    method StageProject(record: Record, leaf: string, trouble: Trouble) returns (outcome: Outcome)
      requires Valid() && leaf !in files.staging && record.slug !in files.projects
      requires trouble.Trouble? && trouble.left.Some? ==> trouble.left.value <= Written(trouble.written) + {Scrap}
      modifies this
      ensures Valid() && outcome == TroubleOutcome(trouble)
      ensures files == if trouble.NoTrouble? then old(files).(projects := old(files).projects[record.slug := record])
                       else if trouble.left.Some?
                         then old(files).(staging := old(files).staging[leaf := trouble.left.value])
                       else old(files)
    {
      StageFiles(leaf, trouble);
      if trouble.NoTrouble? {
        files := files.(projects := files.projects[record.slug := record], staging := files.staging - {leaf});
        projectDirs := projectDirs + [record.slug];
        assert files.staging == old(files).staging;
        outcome := Done;
      } else if trouble.left.None? {
        files := files.(staging := files.staging - {leaf});
        assert files.staging == old(files).staging;
        outcome := ScaffoldFailed;
      } else {
        files := files.(staging := files.staging[leaf := trouble.left.value]);
        stagingDirs := stagingDirs + [leaf];
        outcome := CleanupFailed;
      }
    }

    /** Creates a project inside the lock: published whole, or not at all. */
    method CreateProjectScaffold(name: string, explicitSlug: string, port: int, id: string, body: string,
                                 leaf: string, trouble: Trouble)
      returns (outcome: Outcome)
      requires Valid() && leaf !in files.staging
      requires trouble.Trouble? && trouble.left.Some? ==> trouble.left.value <= Written(trouble.written) + {Scrap}
      modifies this
      ensures Valid()
      ensures outcome == CreateOutcome(old(files), name,
                                       Create(id, RequestedSlug(name, explicitSlug), port, body, leaf), trouble)
      ensures files == CreateFiles(old(files), outcome,
                                   Create(id, RequestedSlug(name, explicitSlug), port, body, leaf), trouble)
    {
      var slug := RequestedSlug(name, explicitSlug);
      if Strings.Trim(name) == "" || !(1024 <= port <= 65535) || !Slug.Valid(slug) { return BadRequest; }
      var check, record := PrepareProject(Create(id, slug, port, body, leaf));
      if record.None? { return check; }
      outcome := StageProject(record.value, leaf, trouble);
    }

    /** Replaces a project's record when its identity, subnet and every other port stand, and the new
        manifest can be written. */
    method SaveProjectRecord(dir: string, record: Record, writable: bool) returns (outcome: Outcome)
      requires Valid()
      modifies this
      ensures Valid()
      ensures outcome == Done || outcome == ManifestWriteFailed <==>
                Strict(old(files)) && Saveable(old(files), Save(dir, record))
      ensures outcome == Done ==> writable
      ensures outcome == ManifestWriteFailed ==> !writable
      ensures outcome.InventoryInvalid? || outcome.IdentityMismatch? || outcome.PortConflict?
              || outcome.ManifestWriteFailed? || outcome == Done
      ensures files == if outcome == Done
                       then old(files).(projects := old(files).projects[dir := record]) else old(files)
    {
      var inventory := ReadStrictProjectInventory();
      if inventory.None? { return InventoryInvalid; }
      if dir !in projectDirs { return IdentityMismatch; }
      var current := files.projects[dir];
      if record.id != current.id || record.slug != current.slug || record.subnet != current.subnet {
        return IdentityMismatch;
      }
      if !(1024 <= record.port <= 65535) { return InventoryInvalid; }
      for i := 0 to |inventory.value|
        invariant forall k :: 0 <= k < i && projectDirs[k] != dir ==> inventory.value[k].port != record.port
      {
        if projectDirs[i] != dir && inventory.value[i].port == record.port {
          assert projectDirs[i] in files.projects;
          return PortConflict;
        }
      }
      if !writable { return ManifestWriteFailed; }
      files := files.(projects := files.projects[dir := record]);
      assert files.projects.Keys == old(files.projects.Keys);
      return Done;
    }
  }
  // ---------------------------------------------------------------- the loops run the protocol

  /** The steps of one uninterrupted create: the check, the files one by one, then the rename or the cleanup. */
  ghost predicate CreateRun(ss: seq<System>, p: Pid, trouble: Trouble) {
    var writes := if trouble.NoTrouble? then 4 else trouble.written;
    && |ss| == writes + 3 && Next(ss[0], Check(p), ss[1])
    && (forall i :: 1 <= i <= writes ==> Next(ss[i], WriteFile(p), ss[i + 1]))
    && Next(ss[writes + 1], if trouble.NoTrouble? then Publish(p) else Abandon(p, trouble.left), ss[writes + 2])
  }

  lemma {:induction false} StagedAfter(ss: seq<System>, p: Pid, n: nat)
    requires n < |ss| - 1 && forall i :: 1 <= i <= n ==> Next(ss[i], WriteFile(p), ss[i + 1])
    requires p in ss[1].pcs && ss[1].pcs[p].Staging? && ss[1].pcs[p].leaf in ss[1].files.staging
    requires ss[1].files.staging[ss[1].pcs[p].leaf] == {}
    ensures ss[n + 1].pcs == ss[1].pcs
    ensures ss[n + 1].files == ss[1].files.(staging := ss[1].files.staging[ss[1].pcs[p].leaf := Written(n)])
  {
    if n > 0 {
      StagedAfter(ss, p, n - 1);
      assert Next(ss[n], WriteFile(p), ss[n + 1]);
      assert Written(n - 1) + {NextFile(Written(n - 1))} == Written(n);
      var leaf := ss[1].pcs[p].leaf;
      assert ss[1].files.staging[leaf := Written(n - 1)][leaf := Written(n)] == ss[1].files.staging[leaf := Written(n)];
    } else {
      assert ss[1].files.staging[ss[1].pcs[p].leaf := {}] == ss[1].files.staging;
    }
  }

  /** The files after the last step, from those after the last write. */
  lemma EndOfRun(f: Files, g: Files, leaf: string, files: set<StagedFile>, left: Option<set<StagedFile>>)
    requires leaf !in f.staging && g == f.(staging := f.staging[leaf := files])
    ensures Remaining(g, leaf, None) == f && g.staging - {leaf} == f.staging
    ensures left.Some? ==> Remaining(g, leaf, left) == f.(staging := f.staging[leaf := left.value])
  {
    assert g.staging - {leaf} == f.staging;
    assert left.Some? ==> g.staging[leaf := left.value] == f.staging[leaf := left.value];
  }

  /** What the create method leaves on disk is what its steps leave there. */
  lemma CreateMethodRunsTheProtocol(ss: seq<System>, p: Pid, t: Transaction, trouble: Trouble)
    requires CreateRun(ss, p, trouble) && ss[0].pcs[p].t == t && t.Create? && t.leaf !in ss[0].files.staging
    requires CheckOutcome(ss[0].files, t) == Done
    ensures ss[|ss| - 1].files == CreateFiles(ss[0].files, TroubleOutcome(trouble), t, trouble)
  {
    var writes := if trouble.NoTrouble? then 4 else trouble.written;
    var f := ss[0].files;
    assert ss[1].files == f.(staging := f.staging[t.leaf := {}]);
    StagedAfter(ss, p, writes);
    assert f.staging[t.leaf := {}][t.leaf := Written(writes)] == f.staging[t.leaf := Written(writes)];
    EndOfRun(f, ss[writes + 1].files, t.leaf, Written(writes), if trouble.NoTrouble? then None else trouble.left);
  }
}
