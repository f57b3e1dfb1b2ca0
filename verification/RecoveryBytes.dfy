/** Bytes of recovery storage: trees are walked one after the other and a file with several names counts once. */
module RecoveryBytes {
  /** A file is known by device and inode, or by its path where the file system gives no inode. */
  datatype FileKey = ByInode(device: nat, inode: nat) | ByPath(device: nat, path: string)

  datatype Node = File(path: string, device: nat, inode: nat) | Dir(children: seq<Node>) | Link | Special

  function KeyOf(path: string, device: nat, inode: nat): FileKey {
    if inode == 0 then ByPath(device, path) else ByInode(device, inode)
  }

  type Sizes = FileKey -> nat

  /** The distinct files in a tree; links are not followed. */
  function Files(n: Node): set<FileKey>
    decreases n
  {
    match n
    case File(path, device, inode) => {KeyOf(path, device, inode)}
    case Dir(children) => FilesOf(children)
    case _ => {}
  }

  function FilesOf(ns: seq<Node>): set<FileKey>
    decreases ns
  {
    if ns == [] then {} else Files(ns[0]) + FilesOf(ns[1..])
  }

  /** How many links a tree holds: each is rejected once, and nothing behind it is looked at. */
  function Links(n: Node): nat
    decreases n
  {
    match n
    case Link => 1
    case Dir(children) => LinksOf(children)
    case _ => 0
  }

  function LinksOf(ns: seq<Node>): nat
    decreases ns
  {
    if ns == [] then 0 else Links(ns[0]) + LinksOf(ns[1..])
  }

  /** The sum of the sizes of a set of files. */
  ghost function Total(files: set<FileKey>, sizes: Sizes): nat {
    if files == {} then 0
    else
      var f :| f in files;
      sizes(f) + Total(files - {f}, sizes)
  }

  lemma {:induction false} TotalWithout(files: set<FileKey>, f: FileKey, sizes: Sizes)
    requires f in files
    ensures Total(files, sizes) == sizes(f) + Total(files - {f}, sizes)
  {
    var g :| g in files && Total(files, sizes) == sizes(g) + Total(files - {g}, sizes);
    if g != f {
      TotalWithout(files - {g}, f, sizes);
      TotalWithout(files - {f}, g, sizes);
      assert files - {g} - {f} == files - {f} - {g};
    }
  }

  lemma {:induction false} TotalJoins(a: set<FileKey>, b: set<FileKey>, sizes: Sizes)
    requires a !! b
    ensures Total(a + b, sizes) == Total(a, sizes) + Total(b, sizes)
    decreases a
  {
    if a == {} {
      assert a + b == b;
    } else {
      var f :| f in a;
      TotalWithout(a, f, sizes);
      TotalWithout(a + b, f, sizes);
      assert a + b - {f} == (a - {f}) + b;
      TotalJoins(a - {f}, b, sizes);
    }
  }

  /** A single file adds its size unless it has been seen. */
  lemma OneFile(key: FileKey, seen: set<FileKey>, sizes: Sizes)
    ensures Total({key} - seen, sizes) == if key in seen then 0 else sizes(key)
  {
    if key in seen {
      assert {key} - seen == {};
    } else {
      assert {key} - seen == {key};
      TotalWithout({key}, key, sizes);
      assert {key} - {key} == {};
    }
  }

  /** The files seen so far, shared by every tree of one evaluation. */
  class Accounting {
    const sizes: Sizes
    var seenFiles: set<FileKey>
    var rejectedLinks: nat

    constructor (sizes: Sizes)
      ensures this.sizes == sizes && seenFiles == {} && rejectedLinks == 0
    {
      this.sizes := sizes;
      seenFiles, rejectedLinks := {}, 0;
    }

    /** Adds the files of a tree that were not seen before. */
    method AccountDirectoryBytes(root: Node) returns (total: nat)
      modifies this
      ensures seenFiles == old(seenFiles) + Files(root)
      ensures total == Total(Files(root) - old(seenFiles), sizes)
      ensures rejectedLinks == old(rejectedLinks) + Links(root)
      decreases root
    {
      total := 0;
      match root
      case Link =>
        rejectedLinks := rejectedLinks + 1;
      case Dir(children) =>
        for i := 0 to |children|
          invariant seenFiles == old(seenFiles) + FilesOf(children[..i])
          invariant total == Total(FilesOf(children[..i]) - old(seenFiles), sizes)
          invariant rejectedLinks == old(rejectedLinks) + LinksOf(children[..i])
        {
          var part := AccountDirectoryBytes(children[i]);
          assert children[..i + 1] == children[..i] + [children[i]];
          FilesOfAppend(children[..i], children[i]);
          LinksOfAppend(children[..i], children[i]);
          AddedOnce(FilesOf(children[..i]), Files(children[i]), old(seenFiles), sizes);
          total := total + part;
        }
        assert children[..|children|] == children;
      case File(path, device, inode) =>
        var key := KeyOf(path, device, inode);
        OneFile(key, seenFiles, sizes);
        if key !in seenFiles {
          seenFiles := seenFiles + {key};
          total := sizes(key);
        }
      case Special =>
    }

    /** Accounts the trees of an evaluation, one after the other. */
    method AccountAll(roots: seq<Node>) returns (bytes: seq<nat>)
      requires seenFiles == {}
      modifies this
      ensures bytes == Parts(roots, {}, sizes) && seenFiles == FilesOf(roots)
    {
      bytes := [];
      for i := 0 to |roots|
        invariant seenFiles == FilesOf(roots[..i]) && bytes == Parts(roots[..i], {}, sizes)
      {
        assert roots[..i + 1] == roots[..i] + [roots[i]];
        FilesOfAppend(roots[..i], roots[i]);
        PartsAppend(roots[..i], roots[i], {}, sizes);
        assert {} + FilesOf(roots[..i]) == FilesOf(roots[..i]);
        var part := AccountDirectoryBytes(roots[i]);
        bytes := bytes + [part];
      }
      assert roots[..|roots|] == roots;
    }
  }

  lemma {:induction false} FilesOfAppend(ns: seq<Node>, n: Node)
    ensures FilesOf(ns + [n]) == FilesOf(ns) + Files(n)
  {
    if ns == [] {
      assert ns + [n] == [n] && [n][1..] == [];
    } else {
      assert (ns + [n])[1..] == ns[1..] + [n];
      FilesOfAppend(ns[1..], n);
    }
  }

  lemma {:induction false} LinksOfAppend(ns: seq<Node>, n: Node)
    ensures LinksOf(ns + [n]) == LinksOf(ns) + Links(n)
  {
    if ns == [] {
      assert ns + [n] == [n] && [n][1..] == [];
    } else {
      assert (ns + [n])[1..] == ns[1..] + [n];
      LinksOfAppend(ns[1..], n);
    }
  }

  /** Two names are one file exactly when they share device and inode, or, where the file system gives no
      inode, device and path. */
  lemma SameFile(path: string, device: nat, inode: nat, path': string, device': nat, inode': nat)
    ensures Files(File(path, device, inode)) == Files(File(path', device', inode')) <==>
              device == device' && inode == inode' && (inode == 0 ==> path == path')
  {
    assert KeyOf(path, device, inode) in {KeyOf(path, device, inode)};
  }

  lemma AddedOnce(counted: set<FileKey>, files: set<FileKey>, before: set<FileKey>, sizes: Sizes)
    ensures Total((counted + files) - before, sizes)
            == Total(counted - before, sizes) + Total(files - (before + counted), sizes)
  {
    TotalJoins(counted - before, files - (before + counted), sizes);
    assert (counted + files) - before == (counted - before) + (files - (before + counted));
  }

  /** What each tree adds when the trees are walked in this order. */
  ghost function Parts(roots: seq<Node>, seen: set<FileKey>, sizes: Sizes): (parts: seq<nat>)
    ensures |parts| == |roots|
  {
    if roots == [] then []
    else [Total(Files(roots[0]) - seen, sizes)] + Parts(roots[1..], seen + Files(roots[0]), sizes)
  }

  function Sum(parts: seq<nat>): nat {
    if parts == [] then 0 else parts[0] + Sum(parts[1..])
  }

  lemma {:induction false} PartsAppend(roots: seq<Node>, root: Node, seen: set<FileKey>, sizes: Sizes)
    ensures Parts(roots + [root], seen, sizes)
            == Parts(roots, seen, sizes) + [Total(Files(root) - (seen + FilesOf(roots)), sizes)]
  {
    if roots == [] {
      assert roots + [root] == [root] && seen + FilesOf(roots) == seen;
    } else {
      assert (roots + [root])[1..] == roots[1..] + [root];
      PartsAppend(roots[1..], root, seen + Files(roots[0]), sizes);
      assert (seen + Files(roots[0])) + FilesOf(roots[1..]) == seen + FilesOf(roots);
    }
  }

  lemma {:induction false} PartsSum(roots: seq<Node>, seen: set<FileKey>, sizes: Sizes)
    ensures Sum(Parts(roots, seen, sizes)) == Total(FilesOf(roots) - seen, sizes)
  {
    if roots == [] {
      assert FilesOf(roots) - seen == {};
    } else {
      PartsSum(roots[1..], seen + Files(roots[0]), sizes);
      AddedOnce(Files(roots[0]), FilesOf(roots[1..]), seen, sizes);
    }
  }

  /** The usage is the sum of the sizes of the distinct files. */
  lemma UsageIsDistinctBytes(roots: seq<Node>, sizes: Sizes)
    ensures Sum(Parts(roots, {}, sizes)) == Total(FilesOf(roots), sizes)
  {
    PartsSum(roots, {}, sizes);
    assert FilesOf(roots) - {} == FilesOf(roots);
  }

  lemma {:induction false} InFilesOf(ns: seq<Node>, f: FileKey)
    ensures f in FilesOf(ns) <==> exists i :: 0 <= i < |ns| && f in Files(ns[i])
  {
    if ns != [] {
      InFilesOf(ns[1..], f);
      if f in FilesOf(ns[1..]) {
        var i :| 0 <= i < |ns[1..]| && f in Files(ns[1..][i]);
        assert f in Files(ns[i + 1]);
      }
      if exists i :: 0 < i < |ns| && f in Files(ns[i]) {
        var i :| 0 < i < |ns| && f in Files(ns[i]);
        assert f in Files(ns[1..][i - 1]);
      }
    }
  }

  /** And so it does not depend on the order the trees are visited in, nor on how often one is listed. */
  lemma UsageForgetsTheOrder(roots: seq<Node>, others: seq<Node>, sizes: Sizes)
    requires forall n :: n in roots <==> n in others
    ensures Sum(Parts(roots, {}, sizes)) == Sum(Parts(others, {}, sizes))
  {
    UsageIsDistinctBytes(roots, sizes);
    UsageIsDistinctBytes(others, sizes);
    forall f ensures f in FilesOf(roots) <==> f in FilesOf(others) {
      InFilesOf(roots, f);
      InFilesOf(others, f);
      if i :| 0 <= i < |roots| && f in Files(roots[i]) {
        assert roots[i] in others;
      }
      if i :| 0 <= i < |others| && f in Files(others[i]) {
        assert others[i] in roots;
      }
    }
    assert FilesOf(roots) == FilesOf(others);
  }
}
