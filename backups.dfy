/** The backups of the AddOns.txt manifest (createBackup and cleanupBackups
    in pkg/wow/manager.go): where a backup goes, which entries of the
    manifest's directory count as its backups, their newest-first order,
    and what the retention policy leaves behind. */
module Backups {
  import opened Common
  import opened FileSystem

  /** `<base>.backup.`: what every backup's name starts with. */
  function BackupPrefix(base: string): string
  {
    base + ".backup."
  }

  /** Where createBackup copies the manifest: `<manifest>.backup.<timestamp>`,
      beside it. */
  function BackupPath(manifest: Path, timestamp: string): (p: Path)
    requires manifest != []
    ensures p != [] && Parent(p) == Parent(manifest)
  {
    Parent(manifest) + [BackupPrefix(manifest[|manifest| - 1]) + timestamp]
  }

  /** The files of dir whose names start with the backup prefix. */
  function BackupSet(nodes: map<Path, Node>, dir: Path, base: string): set<Path>
  {
    set p | p in nodes && p != [] && Parent(p) == dir && nodes[p].File? && BackupPrefix(base) <= p[|p| - 1]
  }

  /** The modification time os.Stat reports for a file. */
  function MTime(nodes: map<Path, Node>, p: Path): int
  {
    if p in nodes && nodes[p].File? then nodes[p].mtime else 0
  }

  predicate NewestFirst(nodes: map<Path, Node>, ps: seq<Path>)
  {
    forall i, j :: 0 <= i < j < |ps| ==> MTime(nodes, ps[i]) >= MTime(nodes, ps[j])
  }

  /** sort.Slice with `ModTime().After` as its order, as insertion into a
      newest-first sequence. */
  function InsertByAge(nodes: map<Path, Node>, x: Path, s: seq<Path>): (r: seq<Path>)
    ensures multiset(r) == multiset(s) + multiset{x}
    decreases |s|
  {
    if s == [] then [x]
    else if MTime(nodes, x) >= MTime(nodes, s[0]) then [x] + s
    else
      assert s == [s[0]] + s[1..];
      [s[0]] + InsertByAge(nodes, x, s[1..])
  }

  function SortByAge(nodes: map<Path, Node>, s: seq<Path>): (r: seq<Path>)
    ensures multiset(r) == multiset(s)
    decreases |s|
  {
    if s == [] then []
    else
      assert s == [s[0]] + s[1..];
      InsertByAge(nodes, s[0], SortByAge(nodes, s[1..]))
  }

  /** A file at least as new as every one of a newest-first sequence can
      go in front of it. */
  lemma InFront(nodes: map<Path, Node>, a: Path, s: seq<Path>)
    requires NewestFirst(nodes, s)
    requires forall k :: 0 <= k < |s| ==> MTime(nodes, a) >= MTime(nodes, s[k])
    ensures NewestFirst(nodes, [a] + s)
  {
    var r := [a] + s;
    forall i, j | 0 <= i < j < |r| ensures MTime(nodes, r[i]) >= MTime(nodes, r[j]) {
      assert r[j] == s[j - 1];
      if i > 0 {
        assert r[i] == s[i - 1];
      }
    }
  }

  lemma {:induction false} InsertByAgeSorted(nodes: map<Path, Node>, x: Path, s: seq<Path>)
    requires NewestFirst(nodes, s)
    ensures NewestFirst(nodes, InsertByAge(nodes, x, s))
    decreases |s|
  {
    if s == [] {
    } else if MTime(nodes, x) >= MTime(nodes, s[0]) {
      InFront(nodes, x, s);
    } else {
      var tail := s[1..];
      assert NewestFirst(nodes, tail) by {
        forall i, j | 0 <= i < j < |tail| ensures MTime(nodes, tail[i]) >= MTime(nodes, tail[j]) {
          assert tail[i] == s[i + 1] && tail[j] == s[j + 1];
        }
      }
      InsertByAgeSorted(nodes, x, tail);
      var r := InsertByAge(nodes, x, tail);
      forall k | 0 <= k < |r| ensures MTime(nodes, s[0]) >= MTime(nodes, r[k]) {
        var y := r[k];
        assert y in multiset(r);
        if y != x {
          assert y in multiset(tail);
          var j :| 0 <= j < |tail| && tail[j] == y;
          assert s[j + 1] == y;
        }
      }
      InFront(nodes, s[0], r);
    }
  }

  /** The sort leaves the backups newest first. */
  lemma {:induction false} SortByAgeSorted(nodes: map<Path, Node>, s: seq<Path>)
    ensures NewestFirst(nodes, SortByAge(nodes, s))
    decreases |s|
  {
    if s != [] {
      SortByAgeSorted(nodes, s[1..]);
      InsertByAgeSorted(nodes, s[0], SortByAge(nodes, s[1..]));
    }
  }


  /** A permutation of a sequence without repetition has none either. */
  lemma PermutationDistinct(a: seq<Path>, b: seq<Path>)
    requires Distinct(a) && multiset(a) == multiset(b)
    ensures Distinct(b)
  {
    forall i, j | 0 <= i < j < |b| ensures b[i] != b[j] {
      if b[i] == b[j] {
        var x := b[i];
        assert multiset(b)[x] >= 2 by {
          assert b == b[..i] + [x] + b[i + 1..j] + [x] + b[j + 1..];
          calc {
            multiset(b)[x];
            multiset(b[..i])[x] + 1 + multiset(b[i + 1..j])[x] + 1 + multiset(b[j + 1..])[x];
          }
        }
        assert multiset(a)[x] >= 2;
        Once(a, x);
      }
    }
  }

  /** Each path of a sequence without repetition occurs in it at most once. */
  lemma {:induction false} Once(a: seq<Path>, x: Path)
    requires Distinct(a)
    ensures multiset(a)[x] <= 1
    decreases |a|
  {
    if a != [] {
      var tail := a[1..];
      assert a == [a[0]] + tail;
      assert Distinct(tail) by {
        forall i, j | 0 <= i < j < |tail| ensures tail[i] != tail[j] {
          assert tail[i] == a[i + 1] && tail[j] == a[j + 1];
        }
      }
      Once(tail, x);
      if a[0] == x {
        assert x !in tail by {
          forall j | 0 <= j < |tail| ensures tail[j] != x {
            assert tail[j] == a[j + 1];
          }
        }
      }
    }
  }

  /** The backups cleanupBackups removes: those past the first k of the
      newest-first order, except where os.Remove fails. */
  function Doomed(order: seq<Path>, k: nat, faults: set<Path>): set<Path>
  {
    set x | x in order[Min(k, |order|)..] && x !in faults
  }

  /** The first k of the newest-first order (all of it when it is shorter). */
  function Newest(order: seq<Path>, k: nat): set<Path>
  {
    set x | x in order[..Min(k, |order|)]
  }

  /** The retention policy: with the backups B of a directory in
      newest-first order, removing the doomed ones leaves every other node
      as it was and keeps the k newest backups, each at least as new as any
      backup removed; when no removal fails, exactly min(k, |B|) backups
      remain and they are those k newest. */
  lemma Retention(nodes: map<Path, Node>, dir: Path, base: string, order: seq<Path>, k: nat, faults: set<Path>)
    requires Distinct(order) && NewestFirst(nodes, order)
    requires forall p :: p in order <==> p in BackupSet(nodes, dir, base)
    ensures var B, after := BackupSet(nodes, dir, base), nodes - Doomed(order, k, faults);
      (forall p :: p in nodes && p !in B ==> p in after && after[p] == nodes[p])
      && BackupSet(after, dir, base) <= B
      && Newest(order, k) <= BackupSet(after, dir, base)
      && (forall b, d :: b in Newest(order, k) && d in B && d !in after ==> MTime(nodes, b) >= MTime(nodes, d))
      && |Newest(order, k)| == Min(k, |B|)
      && (B !! faults ==> BackupSet(after, dir, base) == Newest(order, k))
  {
    var B := BackupSet(nodes, dir, base);
    RemovedBackups(nodes, dir, base, order, k, faults);
    NewestKept(order, k, faults);
    NewestNewer(nodes, order, k, faults);
    NewestCard(order, k);
    ElemsCard(order);
    assert (set x | x in order) == B;
    if B !! faults {
      NoFaultsKeepsNewest(order, k, faults);
    }
  }

  /** Removing doomed backups removes nothing else. */
  lemma RemovedBackups(nodes: map<Path, Node>, dir: Path, base: string, order: seq<Path>, k: nat, faults: set<Path>)
    requires forall p :: p in order ==> p in BackupSet(nodes, dir, base)
    ensures var B, after := BackupSet(nodes, dir, base), nodes - Doomed(order, k, faults);
      Doomed(order, k, faults) <= B
      && (forall p :: p in nodes && p !in B ==> p in after && after[p] == nodes[p])
      && BackupSet(after, dir, base) == B - Doomed(order, k, faults)
  {
    var m := Min(k, |order|);
    forall x | x in order[m..] ensures x in order {
      var j :| 0 <= j < |order| - m && order[m..][j] == x;
      assert order[m + j] == x;
    }
  }

  /** None of the k newest is doomed. */
  lemma NewestKept(order: seq<Path>, k: nat, faults: set<Path>)
    requires Distinct(order)
    ensures Newest(order, k) !! Doomed(order, k, faults)
  {
    var m := Min(k, |order|);
    forall b | b in Newest(order, k) ensures b !in order[m..] {
      var i :| 0 <= i < m && order[..m][i] == b;
      assert order[i] == b;
      forall j | 0 <= j < |order| - m ensures order[m..][j] != b {
        assert order[m..][j] == order[m + j];
      }
    }
  }

  /** Each of the k newest is at least as new as every doomed backup. */
  lemma NewestNewer(nodes: map<Path, Node>, order: seq<Path>, k: nat, faults: set<Path>)
    requires NewestFirst(nodes, order)
    ensures forall b, d :: b in Newest(order, k) && d in Doomed(order, k, faults) ==> MTime(nodes, b) >= MTime(nodes, d)
  {
    var m := Min(k, |order|);
    forall b, d | b in Newest(order, k) && d in Doomed(order, k, faults) ensures MTime(nodes, b) >= MTime(nodes, d) {
      var i :| 0 <= i < m && order[..m][i] == b;
      var j :| 0 <= j < |order| - m && order[m..][j] == d;
      assert order[i] == b && order[m + j] == d;
    }
  }

  /** With no removal failing, what is left of the order is its k newest. */
  lemma NoFaultsKeepsNewest(order: seq<Path>, k: nat, faults: set<Path>)
    requires (set x | x in order) !! faults
    ensures (set x | x in order) - Doomed(order, k, faults) <= Newest(order, k)
  {
    var m := Min(k, |order|);
    forall j | 0 <= j < |order| ensures order[j] in order[..m] || order[j] in order[m..] {
      if j < m {
        assert order[..m][j] == order[j];
      } else {
        assert order[m..][j - m] == order[j];
      }
    }
  }

  /** The first k of a sequence without repetition are min(k, length) paths. */
  lemma NewestCard(order: seq<Path>, k: nat)
    requires Distinct(order)
    ensures |Newest(order, k)| == Min(k, |order|)
  {
    var m := Min(k, |order|);
    assert Distinct(order[..m]) by {
      forall i, j | 0 <= i < j < m ensures order[..m][i] != order[..m][j] {
        assert order[..m][i] == order[i] && order[..m][j] == order[j];
      }
    }
    ElemsCard(order[..m]);
  }

  /** A sequence without repetition has as many elements as the set of
      them. */
  lemma {:induction false} ElemsCard(s: seq<Path>)
    requires Distinct(s)
    ensures |set x | x in s| == |s|
    decreases |s|
  {
    if s != [] {
      var tail := s[1..];
      assert Distinct(tail) by {
        forall i, j | 0 <= i < j < |tail| ensures tail[i] != tail[j] {
          assert tail[i] == s[i + 1] && tail[j] == s[j + 1];
        }
      }
      ElemsCard(tail);
      assert s[0] !in tail by {
        forall j | 0 <= j < |tail| ensures tail[j] != s[0] {
          assert tail[j] == s[j + 1];
        }
      }
      assert (set x | x in s) == (set x | x in tail) + {s[0]} by {
        assert s == [s[0]] + tail;
      }
    }
  }

  /** A backup createBackup makes is one of the files cleanupBackups
      considers. */
  lemma BackupCounted(nodes: map<Path, Node>, manifest: Path, timestamp: string, data: string, now: int)
    requires manifest != []
    ensures var p := BackupPath(manifest, timestamp);
      p in BackupSet(nodes[p := File(data, now)], Parent(manifest), manifest[|manifest| - 1])
  {
    var p := BackupPath(manifest, timestamp);
    var base := manifest[|manifest| - 1];
    assert p[|p| - 1] == BackupPrefix(base) + timestamp;
  }

  /** The manifest itself is never one of its backups: its name is shorter
      than the prefix. */
  lemma ManifestNotBackup(nodes: map<Path, Node>, manifest: Path)
    requires manifest != []
    ensures manifest !in BackupSet(nodes, Parent(manifest), manifest[|manifest| - 1])
  {
    var base := manifest[|manifest| - 1];
    assert |BackupPrefix(base)| > |base|;
  }
}
