/**
  The project store: a lock directory with an owner token, a strict inventory, and projects that are
  staged and then renamed into place.  Several processes interleave at every file operation, and every
  operation may fail or be the last one of its process.
 */
module ProjectStore {
  import opened Options
  import Slug

  const PROJECT_NETWORK_POOL: seq<string> := [
    "10.252.254.0/24", "10.252.255.0/24", "10.252.253.0/24", "10.252.252.0/24", "10.251.254.0/24",
    "10.251.255.0/24", "10.250.254.0/24", "10.250.255.0/24", "10.250.253.0/24", "10.250.252.0/24",
    "10.250.251.0/24", "10.250.250.0/24", "10.250.249.0/24", "10.250.248.0/24"
  ]

  // ---------------------------------------------------------------- files

  datatype Record = Record(id: string, slug: string, port: int, subnet: Option<string>, body: string)

  /** `Scrap` stands for a temporary file, or for one of the four that is not written to its end. */
  datatype StagedFile = EnvFile | BindingFile | ComposeFile | ManifestFile | Scrap

  datatype Lock = NoLock | LockDir(owner: Option<string>)

  /** `projects` maps a directory name to its manifest, `staging` a leaf name to the files in it. */
  datatype Files = Files(lock: Lock, projects: map<string, Record>, staging: map<string, set<StagedFile>>)

  // ---------------------------------------------------------------- the strict inventory

  predicate ValidRecord(dir: string, r: Record) {
    && r.id != "" && Slug.Valid(r.slug) && r.slug == dir && 1024 <= r.port <= 65535
    && (r.subnet.Some? ==> r.subnet.value in PROJECT_NETWORK_POOL)
  }

  predicate Clash(a: Record, b: Record) {
    || Slug.Lower(a.id) == Slug.Lower(b.id) || a.port == b.port
    || (a.subnet.Some? && a.subnet == b.subnet)
  }

  /** A staged directory is accepted only if its files are whole and were written in the scaffold's order. */
  predicate OrderedLeaf(files: set<StagedFile>) {
    && Scrap !in files
    && (BindingFile in files ==> EnvFile in files)
    && (ComposeFile in files ==> BindingFile in files)
    && (ManifestFile in files ==> ComposeFile in files)
  }

  ghost predicate StrictProjects(projects: map<string, Record>) {
    && (forall d :: d in projects ==> ValidRecord(d, projects[d]))
    && (forall d, e :: d in projects && e in projects && Clash(projects[d], projects[e]) ==> d == e)
  }

  ghost predicate Strict(f: Files) {
    StrictProjects(f.projects) && forall l :: l in f.staging ==> OrderedLeaf(f.staging[l])
  }

  ghost predicate Free(projects: map<string, Record>, r: Record) {
    r.slug !in projects && forall d :: d in projects ==> !Clash(projects[d], r)
  }

  // ---------------------------------------------------------------- network allocation

  function FirstFree(pool: seq<string>, taken: set<string>): (free: Option<string>)
    ensures free.Some? ==> free.value in pool && free.value !in taken
    ensures free.None? ==> forall s :: s in pool ==> s in taken
  {
    if pool == [] then None
    else if pool[0] !in taken then Some(pool[0])
    else FirstFree(pool[1..], taken)
  }

  function Taken(projects: map<string, Record>): set<string> {
    set d | d in projects && projects[d].subnet.Some? :: projects[d].subnet.value
  }

  // ---------------------------------------------------------------- transactions

  datatype Transaction =
    | Create(id: string, slug: string, port: int, body: string, leaf: string)
    | Save(slug: string, record: Record)

  /** The record a create would publish, when every check inside the transaction passes. */
  function Prepared(f: Files, t: Transaction): Option<Record>
    requires t.Create?
  {
    var subnet := FirstFree(PROJECT_NETWORK_POOL, Taken(f.projects));
    if (exists d <- f.projects :: f.projects[d].port == t.port) || t.slug in f.projects || subnet.None? then None
    else Some(Record(t.id, t.slug, t.port, subnet, t.body))
  }

  /** The checks of a save: same identity and allocation, a valid port that no other project has. */
  predicate Saveable(f: Files, t: Transaction)
    requires t.Save?
  {
    && t.slug in f.projects
    && t.record.id == f.projects[t.slug].id && t.record.slug == f.projects[t.slug].slug
    && t.record.subnet == f.projects[t.slug].subnet
    && 1024 <= t.record.port <= 65535
    && forall d <- f.projects :: d != t.slug ==> f.projects[d].port != t.record.port
  }

  // ---------------------------------------------------------------- processes

  type Pid = nat

  datatype Pc =
    | Waiting(token: string, t: Transaction)
    | MadeDir(token: string, t: Transaction)
    | Inside(token: string, t: Transaction)
    | Staging(token: string, record: Record, leaf: string)
    | Releasing(token: string)
    | Unlinked(token: string)

  datatype System = System(files: Files, pcs: map<Pid, Pc>)

  datatype Step =
    | Arrive(p: Pid, token: string, t: Transaction)
    | MakeDir(p: Pid)
    | GiveUp(p: Pid)
    | WriteOwner(p: Pid, ok: bool, cleaned: bool)
    | Check(p: Pid)
    | CheckFails(p: Pid)                              // reading, opening the leaf or writing the record fails
    | WriteFile(p: Pid)
    | Publish(p: Pid)
    | Abandon(p: Pid, left: Option<set<StagedFile>>)  // a failed scaffold; `left` remains if its cleanup fails
    | Die(p: Pid, left: Option<set<StagedFile>>)      // the process ends inside a write or inside the cleanup
    | UnlinkOwner(p: Pid)
    | RemoveDir(p: Pid)
    | ReleaseFails(p: Pid)                            // the owner file or the lock directory stays
    | Crash(p: Pid)

  function NextFile(files: set<StagedFile>): StagedFile {
    if EnvFile !in files then EnvFile
    else if BindingFile !in files then BindingFile
    else if ComposeFile !in files then ComposeFile
    else ManifestFile
  }

  /** What callers guarantee: a valid slug, a port in range, and names no one has used. */
  ghost predicate Fresh(s: System, token: string, t: Transaction) {
    && (forall p :: p in s.pcs ==> s.pcs[p].token != token)
    && s.files.lock != LockDir(Some(token))
    && (t.Create? ==>
          && t.id != "" && Slug.Valid(t.slug) && 1024 <= t.port <= 65535
          && t.leaf !in s.files.staging
          && (forall d :: d in s.files.projects ==> Slug.Lower(s.files.projects[d].id) != Slug.Lower(t.id))
          && (forall p :: p in s.pcs ==> !UsesName(s.pcs[p], t)))
  }

  predicate UsesName(pc: Pc, t: Transaction)
    requires t.Create?
  {
    || ((pc.Waiting? || pc.MadeDir? || pc.Inside?) && pc.t.Create?
        && (Slug.Lower(pc.t.id) == Slug.Lower(t.id) || pc.t.leaf == t.leaf))
    || (pc.Staging? && (Slug.Lower(pc.record.id) == Slug.Lower(t.id) || pc.leaf == t.leaf))
  }

  function Moved(s: System, f: Files, p: Pid, pc: Pc): System { System(f, s.pcs[p := pc]) }

  function Left(s: System, f: Files, p: Pid): System { System(f, s.pcs - {p}) }

  /** Everything a transaction does before it starts to stage files, as one step inside the lock. */
  ghost function Checked(s: System, p: Pid): System
    requires p in s.pcs && s.pcs[p].Inside?
  {
    var f, pc := s.files, s.pcs[p];
    if Strict(f) && pc.t.Create? && Prepared(f, pc.t).Some? then
      Moved(s, f.(staging := f.staging[pc.t.leaf := {}]), p, Staging(pc.token, Prepared(f, pc.t).value, pc.t.leaf))
    else if Strict(f) && pc.t.Save? && Saveable(f, pc.t) then
      Moved(s, f.(projects := f.projects[pc.t.slug := pc.t.record]), p, Releasing(pc.token))
    else
      Moved(s, f, p, Releasing(pc.token))
  }

  predicate StagingAt(s: System, p: Pid) {
    p in s.pcs && s.pcs[p].Staging? && s.pcs[p].leaf in s.files.staging
  }

  /** What a cleanup that is cut short can leave: some of the files, and one that was being written. */
  predicate CanRemain(f: Files, leaf: string, left: Option<set<StagedFile>>)
    requires leaf in f.staging
  {
    left.Some? ==> left.value <= f.staging[leaf] + {Scrap}
  }

  function Remaining(f: Files, leaf: string, left: Option<set<StagedFile>>): Files {
    match left
    case None => f.(staging := f.staging - {leaf})
    case Some(rest) => f.(staging := f.staging[leaf := rest])
  }

  ghost predicate Next(s: System, step: Step, s': System) {
    var f := s.files;
    match step
    case Arrive(p, token, t) => p !in s.pcs && Fresh(s, token, t) && s' == Moved(s, f, p, Waiting(token, t))
    case MakeDir(p) =>
      && p in s.pcs && s.pcs[p].Waiting?
      && s' == if f.lock.NoLock? then Moved(s, f.(lock := LockDir(None)), p, MadeDir(s.pcs[p].token, s.pcs[p].t)) else s
    case GiveUp(p) => p in s.pcs && s.pcs[p].Waiting? && s' == Left(s, f, p)
    case WriteOwner(p, ok, cleaned) =>
      && p in s.pcs && s.pcs[p].MadeDir?
      && s' == if ok then Moved(s, f.(lock := LockDir(Some(s.pcs[p].token))), p, Inside(s.pcs[p].token, s.pcs[p].t))
               else Left(s, if cleaned then f.(lock := NoLock) else f, p)
    case Check(p) => p in s.pcs && s.pcs[p].Inside? && s' == Checked(s, p)
    case CheckFails(p) => p in s.pcs && s.pcs[p].Inside? && s' == Moved(s, f, p, Releasing(s.pcs[p].token))
    case WriteFile(p) =>
      && StagingAt(s, p)
      && var files := f.staging[s.pcs[p].leaf];
         s' == s.(files := f.(staging := f.staging[s.pcs[p].leaf := files + {NextFile(files)}]))
    case Publish(p) =>
      && StagingAt(s, p) && ManifestFile in f.staging[s.pcs[p].leaf]
      && s' == Moved(s, f.(projects := f.projects[s.pcs[p].record.slug := s.pcs[p].record],
                           staging := f.staging - {s.pcs[p].leaf}), p, Releasing(s.pcs[p].token))
    case Abandon(p, left) =>
      && StagingAt(s, p) && CanRemain(f, s.pcs[p].leaf, left)
      && s' == Moved(s, Remaining(f, s.pcs[p].leaf, left), p, Releasing(s.pcs[p].token))
    case Die(p, left) =>
      && StagingAt(s, p) && CanRemain(f, s.pcs[p].leaf, left)
      && s' == Left(s, Remaining(f, s.pcs[p].leaf, left), p)
    case UnlinkOwner(p) =>
      && p in s.pcs && s.pcs[p].Releasing?
      && s' == if f.lock == LockDir(Some(s.pcs[p].token))
        then Moved(s, f.(lock := LockDir(None)), p, Unlinked(s.pcs[p].token))
               else Left(s, f, p)
    case RemoveDir(p) => p in s.pcs && s.pcs[p].Unlinked? && s' == Left(s, f.(lock := NoLock), p)
    case ReleaseFails(p) => p in s.pcs && (s.pcs[p].Releasing? || s.pcs[p].Unlinked?) && s' == Left(s, f, p)
    case Crash(p) => p in s.pcs && s' == Left(s, f, p)
  }

  ghost predicate Init(s: System) {
    s.pcs == map[] && s.files.lock == NoLock && Strict(s.files)
  }
}
