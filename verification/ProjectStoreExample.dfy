/** A run after which the unlocked store refuses its own inventory. */
module ProjectStoreExample {
  import opened Options
  import opened ProjectStore
  import opened ProjectStoreSafety

  const SHOP := Create("id-1", "shop", 8080, "", "leaf-1")

  function Shop(lock: Option<Lock>, left: Option<set<StagedFile>>): Files {
    Files(if lock.Some? then lock.value else NoLock, map[], if left.Some? then map["leaf-1" := left.value] else map[])
  }

  const MINE := Some(LockDir(Some("key-1")))
  const BARE := Some(LockDir(None))

  lemma Extended(ss: seq<System>, steps: seq<Step>, step: Step, s: System)
    requires Run(ss, steps) && Next(ss[|ss| - 1], step, s)
    ensures Run(ss + [s], steps + [step])
  {
    var all, taken := ss + [s], steps + [step];
    forall i | 0 <= i < |taken| ensures Next(all[i], taken[i], all[i + 1]) {
      assert i < |steps| ==> all[i] == ss[i] && all[i + 1] == ss[i + 1] && taken[i] == steps[i];
    }
  }

  /** A process takes the lock. */
  lemma Entered() returns (ss: seq<System>, steps: seq<Step>)
    ensures Run(ss, steps) && ss[|ss| - 1] == System(Shop(MINE, None), map[0 := Inside("key-1", SHOP)])
  {
    var s0 := System(Shop(None, None), map[]);
    var s1 := System(Shop(None, None), map[0 := Waiting("key-1", SHOP)]);
    var s2 := System(Shop(BARE, None), map[0 := MadeDir("key-1", SHOP)]);
    var s3 := System(Shop(MINE, None), map[0 := Inside("key-1", SHOP)]);
    assert Next(s0, Arrive(0, "key-1", SHOP), s1);
    Extended([s0], [], Arrive(0, "key-1", SHOP), s1);
    Extended([s0] + [s1], [] + [Arrive(0, "key-1", SHOP)], MakeDir(0), s2);
    ss, steps := [s0] + [s1] + [s2], [] + [Arrive(0, "key-1", SHOP)] + [MakeDir(0)];
    Extended(ss, steps, WriteOwner(0, true, true), s3);
    ss, steps := ss + [s3], steps + [WriteOwner(0, true, true)];
  }

  function Staged(record: Record, left: set<StagedFile>): System {
    System(Shop(MINE, Some(left)), map[0 := Staging("key-1", record, "leaf-1")])
  }

  /** It stages two files. */
  lemma Wrote() returns (ss: seq<System>, steps: seq<Step>, record: Record)
    ensures Run(ss, steps) && ss[|ss| - 1] == Staged(record, {EnvFile, BindingFile})
  {
    ss, steps := Entered();
    var s3 := ss[|ss| - 1];
    assert Taken(map[]) == {} && FirstFree(PROJECT_NETWORK_POOL, {}).Some?;
    record := Prepared(s3.files, SHOP).value;
    assert Checked(s3, 0) == Staged(record, {});
    Extended(ss, steps, Check(0), Staged(record, {}));
    ss, steps := ss + [Staged(record, {})], steps + [Check(0)];
    assert NextFile({}) == EnvFile && {} + {EnvFile} == {EnvFile};
    Extended(ss, steps, WriteFile(0), Staged(record, {EnvFile}));
    ss, steps := ss + [Staged(record, {EnvFile})], steps + [WriteFile(0)];
    assert {EnvFile} + {BindingFile} == {EnvFile, BindingFile};
    Extended(ss, steps, WriteFile(0), Staged(record, {EnvFile, BindingFile}));
    ss, steps := ss + [Staged(record, {EnvFile, BindingFile})], steps + [WriteFile(0)];
  }

  /** The scaffold fails there and its cleanup removes only the first file: the lock is released, and from
      then on the store refuses every create and save. */
  lemma ScrapsExample() returns (ss: seq<System>, steps: seq<Step>)
    ensures Run(ss, steps) && ss[|ss| - 1].files.lock.NoLock? && !Strict(ss[|ss| - 1].files)
  {
    var record: Record;
    ss, steps, record := Wrote();
    var left := Some({BindingFile});
    var s7 := System(Shop(MINE, left), map[0 := Releasing("key-1")]);
    var s8 := System(Shop(BARE, left), map[0 := Unlinked("key-1")]);
    var s9 := System(Shop(None, left), map[]);
    Extended(ss, steps, Abandon(0, left), s7);
    ss, steps := ss + [s7], steps + [Abandon(0, left)];
    Extended(ss, steps, UnlinkOwner(0), s8);
    ss, steps := ss + [s8], steps + [UnlinkOwner(0)];
    Extended(ss, steps, RemoveDir(0), s9);
    ss, steps := ss + [s9], steps + [RemoveDir(0)];
    assert !OrderedLeaf(s9.files.staging["leaf-1"]);
  }
}
