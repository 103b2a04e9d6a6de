/** The part of the operating system the manager (pkg/wow/manager.go) talks
    to: a tree of directories and files, each file with its bytes and its
    modification time, and the os calls it makes on it (Stat, ReadFile,
    ReadDir, WriteFile, Remove, MkdirAll).

    A path is the sequence of its components from the root, so
    filepath.Join(p, a, b) is p + [a, b]. Every call that can fail for
    reasons outside the tree (permissions, a full disk) fails on the paths
    listed in `Faults`; the clock is a parameter. */
module FileSystem {
  import opened Common

  type Path = seq<string>

  datatype Node = File(data: string, mtime: int) | Dir

  /** The paths on which each call fails whatever the tree holds. */
  datatype Faults = Faults(stat: set<Path>, read: set<Path>, write: set<Path>,
                           list: set<Path>, remove: set<Path>, mkdir: set<Path>)

  /** What os.Stat reports: the node, a not-exist error, or another error. */
  datatype StatResult = Found(node: Node) | NotExist | StatFailed

  function Parent(p: Path): Path
    requires p != []
  {
    p[..|p| - 1]
  }

  /** The root is a directory and every other node sits in a directory. */
  predicate Tree(nodes: map<Path, Node>)
  {
    [] in nodes && nodes[[]].Dir?
    && forall p :: p in nodes && p != [] ==> Parent(p) in nodes && nodes[Parent(p)].Dir?
  }

  /** Some proper prefix of p is a file: the lookup fails with ENOTDIR,
      which os.IsNotExist does not take for a missing path. */
  predicate UnderFile(nodes: map<Path, Node>, p: Path)
  {
    exists i :: 0 <= i < |p| && p[..i] in nodes && nodes[p[..i]].File?
  }

  /** os.Stat */
  function Stat(nodes: map<Path, Node>, faults: Faults, p: Path): StatResult
  {
    if p in faults.stat then StatFailed
    else if p in nodes then Found(nodes[p])
    else if UnderFile(nodes, p) then StatFailed
    else NotExist
  }

  /** os.ReadFile (and os.Open followed by reading to the end): the bytes of
      a file; a missing path or a directory fails. */
  function ReadFile(nodes: map<Path, Node>, faults: Faults, p: Path): Option<string>
  {
    if p in faults.read || p !in nodes || nodes[p].Dir? then None
    else Some(nodes[p].data)
  }

  /** The names of the entries of a directory. */
  function Children(nodes: map<Path, Node>, dir: Path): (names: set<string>)
    ensures forall n :: n in names <==> dir + [n] in nodes
  {
    var names := set q | q in nodes && |q| == |dir| + 1 && q[..|dir|] == dir :: q[|dir|];
    forall n ensures n in names <==> dir + [n] in nodes {
      var q := dir + [n];
      assert |q| == |dir| + 1 && q[..|dir|] == dir && q[|dir|] == n;
      if n in names {
        var q' :| q' in nodes && |q'| == |dir| + 1 && q'[..|dir|] == dir && q'[|dir|] == n;
        assert q' == q;
      }
    }
    names
  }

  /** os.ReadDir: the entry names of a directory; a missing path or a file
      fails. */
  function ReadDir(nodes: map<Path, Node>, faults: Faults, dir: Path): Option<set<string>>
  {
    if dir in faults.list || dir !in nodes || nodes[dir].File? then None
    else Some(Children(nodes, dir))
  }

  /** os.WriteFile succeeds when the parent is a directory and the path is
      not one. */
  predicate Writable(nodes: map<Path, Node>, faults: Faults, p: Path)
  {
    p != [] && p !in faults.write && Parent(p) in nodes && nodes[Parent(p)].Dir?
    && !(p in nodes && nodes[p].Dir?)
  }

  predicate HasChild(nodes: map<Path, Node>, p: Path)
  {
    exists q :: q in nodes && q != [] && Parent(q) == p
  }

  /** os.Remove deletes a file or an empty directory, never the root. */
  predicate Removable(nodes: map<Path, Node>, faults: Faults, p: Path)
  {
    p != [] && p !in faults.remove && p in nodes && !(nodes[p].Dir? && HasChild(nodes, p))
  }

  /** Creating p[..i] for MkdirAll: fine when it is already a directory,
      fails on a file, else creates it unless mkdir fails there. */
  predicate MkdirStepOk(nodes: map<Path, Node>, faults: Faults, q: Path)
  {
    if q in nodes then nodes[q].Dir? else q !in faults.mkdir
  }

  predicate MkdirAllOk(nodes: map<Path, Node>, faults: Faults, p: Path)
  {
    forall i :: 0 < i <= |p| ==> MkdirStepOk(nodes, faults, p[..i])
  }

  /** Writing a file and reading it back gives its bytes. */
  lemma ReadAfterWrite(nodes: map<Path, Node>, faults: Faults, p: Path, data: string, now: int)
    requires Writable(nodes, faults, p) && p !in faults.read
    ensures ReadFile(nodes[p := File(data, now)], faults, p) == Some(data)
    ensures Stat(nodes[p := File(data, now)], faults, p) == if p in faults.stat then StatFailed else Found(File(data, now))
  {
  }

  /** p[..i] is the parent of p[..i + 1]. */
  lemma PrefixStep(p: Path, i: nat)
    requires i < |p|
    ensures p[..i + 1] != [] && Parent(p[..i + 1]) == p[..i]
  {
  }

  lemma StepsOkExtend(nodes: map<Path, Node>, faults: Faults, p: Path, i: nat)
    requires i < |p|
    requires forall j :: 0 < j <= i ==> MkdirStepOk(nodes, faults, p[..j])
    requires MkdirStepOk(nodes, faults, p[..i + 1])
    ensures forall j :: 0 < j <= i + 1 ==> MkdirStepOk(nodes, faults, p[..j])
  {
  }

  /** Adding a directory inside a directory keeps the tree a tree. */
  lemma AddDirTree(nodes: map<Path, Node>, q: Path)
    requires Tree(nodes) && q != [] && q !in nodes
    requires Parent(q) in nodes && nodes[Parent(q)].Dir?
    ensures Tree(nodes[q := Dir])
  {
  }

  /** MkdirAll has kept every node and added only directories along the
      first n components of p. */
  predicate Grown(nodes0: map<Path, Node>, nodes: map<Path, Node>, p: Path, n: nat)
  {
    (forall q :: q in nodes0 ==> q in nodes && nodes[q] == nodes0[q])
    && forall q :: q in nodes && q !in nodes0 ==> |q| <= n && n <= |p| && q == p[..|q|] && nodes[q].Dir?
  }

  /** The tree after creating, one after the other, the missing
      directories among the first n prefixes of p. */
  function Mkdirs(nodes0: map<Path, Node>, p: Path, n: nat): map<Path, Node>
    requires n <= |p|
  {
    if n == 0 then nodes0
    else
      var m := Mkdirs(nodes0, p, n - 1);
      if p[..n] in m then m else m[p[..n] := Dir]
  }

  lemma {:induction false} MkdirsKeep(nodes0: map<Path, Node>, p: Path, n: nat)
    requires n <= |p|
    ensures Grown(nodes0, Mkdirs(nodes0, p, n), p, n)
  {
    if n > 0 {
      MkdirsKeep(nodes0, p, n - 1);
    }
  }

  lemma GrownWider(nodes0: map<Path, Node>, nodes: map<Path, Node>, p: Path, n: nat, n': nat)
    requires Grown(nodes0, nodes, p, n) && n <= n' <= |p|
    ensures Grown(nodes0, nodes, p, n')
  {
  }

  /** Mkdirs has not touched p[..i + 1] before step i + 1. */
  lemma StepsLookup(nodes0: map<Path, Node>, faults: Faults, p: Path, i: nat)
    requires i < |p|
    ensures (p[..i + 1] in Mkdirs(nodes0, p, i)) == (p[..i + 1] in nodes0)
    ensures p[..i + 1] in nodes0 ==> Mkdirs(nodes0, p, i)[p[..i + 1]] == nodes0[p[..i + 1]]
  {
    MkdirsKeep(nodes0, p, i);
    assert |p[..i + 1]| == i + 1;
  }

  /** The disk, changed in place by the calls that write. */
  class Disk {
    var nodes: map<Path, Node>
    const faults: Faults

    ghost predicate Valid()
      reads this
    {
      Tree(nodes)
    }

    constructor (nodes: map<Path, Node>, faults: Faults)
      requires Tree(nodes)
      ensures Valid() && this.nodes == nodes && this.faults == faults
    {
      this.nodes := nodes;
      this.faults := faults;
    }

    /** os.WriteFile: creates or truncates the file, stamped with `now`. */
    method WriteFile(p: Path, data: string, now: int) returns (ok: bool)
      requires Valid()
      modifies this
      ensures Valid()
      ensures ok == Writable(old(nodes), faults, p)
      ensures nodes == if ok then old(nodes)[p := File(data, now)] else old(nodes)
    {
      ok := Writable(nodes, faults, p);
      if ok {
        nodes := nodes[p := File(data, now)];
      }
    }

    /** os.Remove */
    method Remove(p: Path) returns (ok: bool)
      requires Valid()
      modifies this
      ensures Valid()
      ensures ok == Removable(old(nodes), faults, p)
      ensures nodes == if ok then old(nodes) - {p} else old(nodes)
    {
      ok := p != [] && p !in faults.remove && p in nodes
        && !(nodes[p].Dir? && exists q :: q in nodes && q != [] && Parent(q) == p);
      if ok {
        ghost var before := nodes;
        nodes := nodes - {p};
        forall q | q in nodes && q != [] ensures Parent(q) in nodes && nodes[Parent(q)].Dir? {
          assert Parent(q) in before && before[Parent(q)].Dir?;
          assert Parent(q) != p;
        }
      }
    }

    /** One step of MkdirAll: q is fine when it is a directory already,
        else it is created in its parent unless mkdir fails there. */
    method Mkdir(q: Path) returns (ok: bool)
      requires Valid() && q != [] && Parent(q) in nodes && nodes[Parent(q)].Dir?
      modifies this
      ensures Valid()
      ensures ok == MkdirStepOk(old(nodes), faults, q)
      ensures nodes == if ok && q !in old(nodes) then old(nodes)[q := Dir] else old(nodes)
    {
      if q in nodes {
        return nodes[q].Dir?;
      }
      if q in faults.mkdir {
        return false;
      }
      AddDirTree(nodes, q);
      nodes := nodes[q := Dir];
      return true;
    }

    /** os.MkdirAll: creates every missing directory along p, from the
        root down, and stops at the first component it cannot create. */
    method MkdirAll(p: Path) returns (ok: bool)
      requires Valid()
      modifies this
      ensures Valid()
      ensures ok == MkdirAllOk(old(nodes), faults, p)
      ensures ok ==> p in nodes && nodes[p].Dir? && nodes == Mkdirs(old(nodes), p, |p|)
      ensures Grown(old(nodes), nodes, p, |p|)
    {
      var i := 0;
      assert p[..0] == [];
      while i < |p|
        invariant 0 <= i <= |p| && Valid()
        invariant p[..i] in nodes && nodes[p[..i]].Dir?
        invariant nodes == Mkdirs(old(nodes), p, i)
        invariant forall j :: 0 < j <= i ==> MkdirStepOk(old(nodes), faults, p[..j])
      {
        PrefixStep(p, i);
        var made := Mkdir(p[..i + 1]);
        if !made {
          MkdirsKeep(old(nodes), p, i);
          GrownWider(old(nodes), nodes, p, i, |p|);
          return false;
        }
        StepsLookup(old(nodes), faults, p, i);
        StepsOkExtend(old(nodes), faults, p, i);
        i := i + 1;
      }
      MkdirsKeep(old(nodes), p, i);
      assert p[..i] == p;
      return true;
    }
  }
}
