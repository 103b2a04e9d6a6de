/** The Manager of pkg/wow/manager.go: loading the profiles of the selected
    account, reading its AddOns.txt manifest, applying a profile (back up,
    rewrite, prune old backups) and checking an install directory, over the
    disk of the FileSystem module.

    The clock is a parameter: `timestamp` is what time.Now().Format gives
    for createBackup's file name and `now` the modification time the disk
    stamps on what is written. */
module WowManager {
  import opened Common
  import opened Profiles
  import opened FileSystem
  import opened Backups
  import opened Manifest
  import RegexFallback
  import RegexFallbackFacts
  import SimpleParserFacts

  /** The errors the manager reports, one per distinct message. */
  datatype Error =
    | NoAccountSelected                  // "no account selected"
    | ReadFailed(path: Path)             // os.ReadFile / os.Open failed
    | WriteFailed(path: Path)            // os.WriteFile / os.Create failed
    | MkdirFailed(path: Path)            // os.MkdirAll failed
    | ListFailed(path: Path)             // os.ReadDir failed
    | ParseDiverges                      // the table parser never returns
    | BackupFailed(cause: Error)         // "failed to create backup: %w"
    | ManifestWriteFailed(cause: Error)  // "failed to write AddOns.txt: %w"
    | DirectoryMissing(path: Path)       // "directory does not exist: %w"
    | NotADirectory(path: Path)          // "path is not a directory"
    | WtfMissing                         // "WTF directory not found"
    | AccountDirMissing                  // "WTF/Account directory not found"

  /** A Go result pair: the value, or the error. */
  datatype Reply<T> = Success(value: T) | Failure(error: Error)

  /** parseAddOnsFile: read the file and parse its scanned lines. */
  method ParseAddOnsFile(disk: Disk, path: Path) returns (r: Reply<map<string, bool>>)
    ensures match ReadFile(disk.nodes, disk.faults, path)
      case None => r == Failure(ReadFailed(path))
      case Some(data) => r == Success(Entries(ScanLines(data)))
  {
    var data := ReadFile(disk.nodes, disk.faults, path);
    if data.None? {
      return Failure(ReadFailed(path));
    }
    var addons := ParseAddOns(ScanLines(data.value));
    return Success(addons);
  }

  /** What writeAddOnsFile needs of the disk to succeed: every directory
      along the way can be made and the manifest can be created. */
  predicate CanWriteManifest(nodes: map<Path, Node>, faults: Faults, path: Path)
    requires path != []
  {
    MkdirAllOk(nodes, faults, Parent(path)) && path !in faults.write && !(path in nodes && nodes[path].Dir?)
  }

  /** Every node of n0 is in n, unchanged. */
  ghost predicate Kept(n0: map<Path, Node>, n: map<Path, Node>)
  {
    forall q :: q in n0 ==> q in n && n[q] == n0[q]
  }

  /** Every node n has beyond n0 is a directory on the way down to dir. */
  ghost predicate DirsToward(n0: map<Path, Node>, n: map<Path, Node>, dir: Path)
  {
    forall q :: q in n && q !in n0 ==> n[q].Dir? && |q| <= |dir| && q == dir[..|q|]
  }

  /** The tree after a successful writeAddOnsFile: the missing directories
      above the manifest made, and the manifest holding the text for addons. */
  ghost function ManifestWritten(nodes: map<Path, Node>, path: Path, addons: map<string, bool>, now: int): (r: map<Path, Node>)
    requires path != []
    ensures path in r && r[path] == File(ManifestText(addons), now)
    ensures forall q :: q in nodes && q != path ==> q in r && r[q] == nodes[q]
  {
    MkdirsKeep(nodes, Parent(path), |Parent(path)|);
    Mkdirs(nodes, Parent(path), |Parent(path)|)[path := File(ManifestText(addons), now)]
  }

  /** writeAddOnsFile: make the directory, then write the manifest text. */
  method WriteAddOnsFile(disk: Disk, path: Path, addons: map<string, bool>, now: int) returns (r: Reply<()>)
    requires disk.Valid() && path != []
    modifies disk
    ensures disk.Valid()
    ensures r.Success? <==> CanWriteManifest(old(disk.nodes), disk.faults, path)
    ensures r.Failure? ==> r.error == MkdirFailed(Parent(path)) || r.error == WriteFailed(path)
    ensures r.Success? ==> path in disk.nodes && disk.nodes[path] == File(ManifestText(addons), now)
    ensures r.Success? ==> disk.nodes == ManifestWritten(old(disk.nodes), path, addons, now)
    ensures forall q :: q in old(disk.nodes) && (r.Failure? || q != path) ==> q in disk.nodes && disk.nodes[q] == old(disk.nodes)[q]
    ensures forall q :: q in disk.nodes && q !in old(disk.nodes) ==>
      q == path || (disk.nodes[q].Dir? && |q| <= |Parent(path)| && q == Parent(path)[..|q|])
    ensures r.Failure? ==> Kept(old(disk.nodes), disk.nodes) && DirsToward(old(disk.nodes), disk.nodes, Parent(path))
  {
    var dir := Parent(path);
    var made := disk.MkdirAll(dir);
    if !made {
      return Failure(MkdirFailed(dir));
    }
    var text := WriteAddOns(addons);
    var written := disk.WriteFile(path, text, now);
    if !written {
      return Failure(WriteFailed(path));
    }
    return Success(());
  }

  /** The install directory check as the source writes it: only a path
      os.IsNotExist recognises as missing fails the WTF and WTF/Account
      steps. */
  function ValidateWowDirectoryAsWritten(nodes: map<Path, Node>, faults: Faults, path: Path): (r: Reply<()>)
    ensures r.Success? <==>
      (Stat(nodes, faults, path) == Found(Dir)
       && !Stat(nodes, faults, path + ["WTF"]).NotExist?
       && !Stat(nodes, faults, path + ["WTF", "Account"]).NotExist?)
  {
    match Stat(nodes, faults, path)
    case NotExist => Failure(DirectoryMissing(path))
    case StatFailed => Failure(DirectoryMissing(path))
    case Found(File(_, _)) => Failure(NotADirectory(path))
    case Found(Dir) =>
      if Stat(nodes, faults, path + ["WTF"]).NotExist? then Failure(WtfMissing)
      else if Stat(nodes, faults, path + ["WTF", "Account"]).NotExist? then Failure(AccountDirMissing)
      else Success(())
  }

  /** ValidateWowDirectory as meant: the path, WTF under it and WTF/Account
      under that are all directories. */
  function ValidateWowDirectory(nodes: map<Path, Node>, faults: Faults, path: Path): (r: Reply<()>)
    ensures r.Success? <==>
      (Stat(nodes, faults, path) == Found(Dir)
       && Stat(nodes, faults, path + ["WTF"]) == Found(Dir)
       && Stat(nodes, faults, path + ["WTF", "Account"]) == Found(Dir))
  {
    match Stat(nodes, faults, path)
    case NotExist => Failure(DirectoryMissing(path))
    case StatFailed => Failure(DirectoryMissing(path))
    case Found(File(_, _)) => Failure(NotADirectory(path))
    case Found(Dir) =>
      if Stat(nodes, faults, path + ["WTF"]) != Found(Dir) then Failure(WtfMissing)
      else if Stat(nodes, faults, path + ["WTF", "Account"]) != Found(Dir) then Failure(AccountDirMissing)
      else Success(())
  }

  /** The corrected check only rejects more. */
  lemma ValidateStricter(nodes: map<Path, Node>, faults: Faults, path: Path)
    ensures ValidateWowDirectory(nodes, faults, path).Success? ==> ValidateWowDirectoryAsWritten(nodes, faults, path).Success?
  {
  }

  /** On a disk where os.Stat fails on nothing, the corrected check accepts
      exactly the paths with a WTF/Account directory under them. */
  lemma ValidateMeansAccountDir(nodes: map<Path, Node>, faults: Faults, path: Path)
    requires Tree(nodes) && faults.stat == {}
    ensures ValidateWowDirectory(nodes, faults, path).Success?
      <==> path + ["WTF", "Account"] in nodes && nodes[path + ["WTF", "Account"]].Dir?
  {
    var wtf, account := path + ["WTF"], path + ["WTF", "Account"];
    assert Parent(account) == wtf && Parent(wtf) == path;
    if account in nodes && nodes[account].Dir? {
      assert wtf in nodes && nodes[wtf].Dir?;
      assert path in nodes && nodes[path].Dir? by {
        if path != [] {
          assert Parent(wtf) in nodes;
        }
      }
    }
  }

  /** A regular file named WTF passes the check as written: os.Stat of it
      succeeds, and os.Stat of WTF/Account fails with ENOTDIR, which
      os.IsNotExist does not recognise, although there is no WTF/Account. */
  lemma WtfFileAccepted()
    ensures var nodes := map[[] := Dir, ["wow"] := Dir, ["wow", "WTF"] := File("", 0)];
      var faults := Faults({}, {}, {}, {}, {}, {});
      ValidateWowDirectoryAsWritten(nodes, faults, ["wow"]).Success?
      && ["wow", "WTF", "Account"] !in nodes
      && ValidateWowDirectory(nodes, faults, ["wow"]) == Failure(WtfMissing)
  {
    var nodes := map[[] := Dir, ["wow"] := Dir, ["wow", "WTF"] := File("", 0)];
    var account: Path := ["wow", "WTF", "Account"];
    assert account[..2] == ["wow", "WTF"];
    assert UnderFile(nodes, account);
    assert account !in nodes;
    assert ["wow"] + ["WTF"] == ["wow", "WTF"];
    assert ["wow"] + ["WTF", "Account"] == account;
  }

  /** The backups the removal loop has removed once it reaches i. */
  function Gone(order: seq<Path>, m: nat, i: nat, faults: set<Path>): set<Path>
    requires m <= i <= |order|
  {
    set x | x in order[m..i] && x !in faults
  }

  lemma GoneStep(order: seq<Path>, m: nat, i: nat, faults: set<Path>)
    requires Distinct(order) && m <= i < |order|
    ensures order[i] !in Gone(order, m, i, faults)
    ensures Gone(order, m, i + 1, faults) == Gone(order, m, i, faults) + (if order[i] in faults then {} else {order[i]})
  {
    forall x | x in order[m..i] ensures x != order[i] {
      var j :| 0 <= j < i - m && order[m..i][j] == x;
      assert order[m + j] == x;
    }
    assert order[m..i + 1] == order[m..i] + [order[i]];
  }

  /** Once the loop has run to the end, it has removed the doomed backups. */
  lemma GoneAll(order: seq<Path>, k: nat, faults: set<Path>)
    ensures Gone(order, Min(k, |order|), |order|, faults) == Doomed(order, k, faults)
  {
    assert order[Min(k, |order|)..|order|] == order[Min(k, |order|)..];
  }

  /** Before removing order[i], it is still a file on the disk, so only a
      fault can make the removal fail. */
  lemma RemoveStep(nodes0: map<Path, Node>, nodes: map<Path, Node>, order: seq<Path>, m: nat, i: nat, faults: Faults)
    requires Distinct(order) && m <= i < |order|
    requires forall p :: p in order ==> p in nodes0 && nodes0[p].File? && p != []
    requires nodes == nodes0 - Gone(order, m, i, faults.remove)
    ensures order[i] in nodes && nodes[order[i]].File?
    ensures Removable(nodes, faults, order[i]) == (order[i] !in faults.remove)
  {
    GoneStep(order, m, i, faults.remove);
  }

  /** Removing order[i], successfully or not, moves the loop one step on. */
  lemma GoneAfterRemove(nodes0: map<Path, Node>, nodes: map<Path, Node>, nodes': map<Path, Node>,
                        order: seq<Path>, m: nat, i: nat, faults: set<Path>, removed: bool)
    requires Distinct(order) && m <= i < |order|
    requires nodes == nodes0 - Gone(order, m, i, faults)
    requires removed == (order[i] !in faults)
    requires nodes' == if removed then nodes - {order[i]} else nodes
    ensures nodes' == nodes0 - Gone(order, m, i + 1, faults)
  {
    GoneStep(order, m, i, faults);
  }

  /** A successful createBackup adds at most the backup file, which is
      one of the manifest's backups: every other node is as it was, and
      still no backup. */
  lemma BackupKeepsOthers(n0: map<Path, Node>, n1: map<Path, Node>, manifest: Path, timestamp: string,
                          written: bool, data: string, now: int)
    requires manifest != []
    requires written ==> !(BackupPath(manifest, timestamp) in n0 && n0[BackupPath(manifest, timestamp)].Dir?)
    requires n1 == if written then n0[BackupPath(manifest, timestamp) := File(data, now)] else n0
    ensures var dir, base := Parent(manifest), manifest[|manifest| - 1];
      forall q :: (q in n0 && q !in BackupSet(n0, dir, base)) ==>
        (q in n1 && n1[q] == n0[q] && q !in BackupSet(n1, dir, base))
  {
    if written {
      BackupCounted(n0, manifest, timestamp, data, now);
    }
  }

  /** Once the manifest holds what writeAddOnsFile wrote, reading it back
      gives the profile's addons. */
  lemma ManifestReadBack(nodes: map<Path, Node>, faults: Faults, manifest: Path, addons: map<string, bool>, now: int)
    requires manifest in nodes && nodes[manifest] == File(ManifestText(addons), now)
    requires manifest !in faults.read && forall name :: name in addons ==> GoodName(name)
    ensures ReadFile(nodes, faults, manifest).Some?
    ensures Entries(ScanLines(ReadFile(nodes, faults, manifest).value)) == addons
  {
    ManifestRoundTrip(addons);
  }

  /** What ApplyProfile leaves alone, from the states between its steps:
      n0 before the backup, n1 after it, n2 after the manifest is written,
      n3 after the cleanup. Only the manifest and the backups may change. */
  lemma ApplyKeepsOthers(n0: map<Path, Node>, n1: map<Path, Node>, n2: map<Path, Node>, n3: map<Path, Node>,
                         manifest: Path, cleaned: bool, order: seq<Path>, k: nat, faults: set<Path>)
    requires manifest != [] && manifest in n2
    requires var dir, base := Parent(manifest), manifest[|manifest| - 1];
      forall q :: (q in n0 && q !in BackupSet(n0, dir, base)) ==>
        (q in n1 && n1[q] == n0[q] && q !in BackupSet(n1, dir, base))
    requires forall q :: q in n1 && q != manifest ==> q in n2 && n2[q] == n1[q]
    requires cleaned ==>
      (forall p :: p in order <==> p in BackupSet(n2, Parent(manifest), manifest[|manifest| - 1]))
      && n3 == n2 - Doomed(order, k, faults)
    requires !cleaned ==> n3 == n2
    ensures manifest in n3 && n3[manifest] == n2[manifest]
    ensures forall q :: (q in n0 && q != manifest && q !in BackupSet(n0, Parent(manifest), manifest[|manifest| - 1])) ==>
      (q in n3 && n3[q] == n0[q])
  {
    var dir, base := Parent(manifest), manifest[|manifest| - 1];
    ManifestNotBackup(n2, manifest);
    if cleaned {
      RemovedBackups(n2, dir, base, order, k, faults);
    }
    forall q | q in n0 && q != manifest && q !in BackupSet(n0, dir, base)
      ensures q in n3 && n3[q] == n0[q]
    {
      assert q in n1 && n1[q] == n0[q] && q !in BackupSet(n1, dir, base);
      assert q in n2 && n2[q] == n1[q];
      assert q !in BackupSet(n2, dir, base);
    }
  }

  /** One entry of the listing looked at: it joins the backups found
      so far exactly when it is a backup file. */
  lemma CollectStep(nodes: map<Path, Node>, dir: Path, base: string, backups: seq<Path>, todo: set<string>,
                    name: string, add: bool, backups': seq<Path>)
    requires name in todo && dir + [name] in nodes
    requires Distinct(backups)
    requires forall p :: p in backups <==> p in BackupSet(nodes, dir, base) && p[|p| - 1] !in todo
    requires add == (nodes[dir + [name]].File? && BackupPrefix(base) <= name)
    requires backups' == if add then backups + [dir + [name]] else backups
    ensures Distinct(backups')
    ensures forall p :: p in backups' <==> p in BackupSet(nodes, dir, base) && p[|p| - 1] !in todo - {name}
  {
    var p := dir + [name];
    var B := BackupSet(nodes, dir, base);
    assert p[|p| - 1] == name && Parent(p) == dir;
    assert p in B <==> add;
    if add {
      assert p !in backups;
      DistinctSnoc(backups, p);
    }
    forall q ensures q in backups' <==> q in B && q[|q| - 1] !in todo - {name} {
      if q in B && q[|q| - 1] == name {
        NamedInDir(q, dir, name);
      }
      if add {
        SnocMember(backups, p, q);
      }
    }
  }

  /** The only path in dir whose last component is name is dir + [name]. */
  lemma NamedInDir(q: Path, dir: Path, name: string)
    requires q != [] && Parent(q) == dir && q[|q| - 1] == name
    ensures q == dir + [name]
  {
    assert q == Parent(q) + [q[|q| - 1]];
  }

  lemma SnocMember(s: seq<Path>, x: Path, q: Path)
    ensures q in s + [x] <==> q in s || q == x
  {
  }

  /** Sorting the backups found keeps them, once each, newest first. */
  lemma SortedBackups(nodes: map<Path, Node>, dir: Path, base: string, backups: seq<Path>)
    requires Distinct(backups)
    requires forall p :: p in backups <==> p in BackupSet(nodes, dir, base)
    ensures var sorted := SortByAge(nodes, backups);
      Distinct(sorted) && NewestFirst(nodes, sorted)
      && forall p :: p in sorted <==> p in BackupSet(nodes, dir, base)
  {
    var sorted := SortByAge(nodes, backups);
    SortByAgeSorted(nodes, backups);
    PermutationDistinct(backups, sorted);
    assert forall p :: p in sorted <==> p in multiset(backups);
  }

  /** Whether createBackup succeeds: there is no manifest to copy, or it
      reads and its backup can be written. */
  predicate BackupOk(nodes: map<Path, Node>, faults: Faults, manifest: Path, timestamp: string)
    requires manifest != []
  {
    Stat(nodes, faults, manifest).NotExist?
    || (ReadFile(nodes, faults, manifest).Some? && Writable(nodes, faults, BackupPath(manifest, timestamp)))
  }

  /** The tree after createBackup: when the manifest exists and the backup
      succeeds, the tree plus an exact copy of the manifest's bytes at
      `<manifest>.backup.<timestamp>`; otherwise the tree as it was. */
  function AfterBackup(nodes: map<Path, Node>, faults: Faults, manifest: Path, timestamp: string, now: int): (r: map<Path, Node>)
    requires manifest != []
    ensures !Stat(nodes, faults, manifest).NotExist? && BackupOk(nodes, faults, manifest, timestamp) ==>
      BackupPath(manifest, timestamp) in r
      && r[BackupPath(manifest, timestamp)] == File(ReadFile(nodes, faults, manifest).value, now)
    ensures forall q :: q in nodes && q != BackupPath(manifest, timestamp) ==> q in r && r[q] == nodes[q]
    ensures forall q :: q in r ==> q in nodes || q == BackupPath(manifest, timestamp)
  {
    if !Stat(nodes, faults, manifest).NotExist? && BackupOk(nodes, faults, manifest, timestamp)
    then nodes[BackupPath(manifest, timestamp) := File(ReadFile(nodes, faults, manifest).value, now)]
    else nodes
  }

  /** The manager: an install path, the selected account and how many
      backups of the manifest to keep, fixed by NewManager. */
  class Manager {
    const wowPath: Path
    const selectedAccount: string
    const backupCount: int

    /** NewManager */
    constructor (wowPath: Path, account: string, backupCount: int)
      ensures this.wowPath == wowPath && selectedAccount == account && this.backupCount == backupCount
    {
      this.wowPath := wowPath;
      selectedAccount := account;
      this.backupCount := backupCount;
    }

    function AccountPath(): Path
    {
      wowPath + ["WTF", "Account", selectedAccount]
    }

    /** WTF/Account/<account>/AddOns.txt */
    function AddOnsPath(): (p: Path)
      ensures p != [] && Parent(p) == AccountPath() && p[|p| - 1] == "AddOns.txt"
    {
      AccountPath() + ["AddOns.txt"]
    }

    /** WTF/Account/<account>/SavedVariables/AddonProfilesDB.lua */
    function SavedVariablesPath(): Path
    {
      AccountPath() + ["SavedVariables", "AddonProfilesDB.lua"]
    }

    /** LoadProfiles: the empty database when the save file is missing,
        else what Parse makes of its text. Every database it yields keeps
        each profile under its own name and scope. */
    method LoadProfiles(disk: Disk, ex: RegexFallback.Extractors) returns (r: Reply<Database>)
      ensures selectedAccount == "" ==> r == Failure(NoAccountSelected)
      ensures selectedAccount != "" && Stat(disk.nodes, disk.faults, SavedVariablesPath()).NotExist?
        ==> r == Success(EmptyDatabase)
      ensures selectedAccount != "" && !Stat(disk.nodes, disk.faults, SavedVariablesPath()).NotExist? ==>
        match ReadFile(disk.nodes, disk.faults, SavedVariablesPath())
        case None => r == Failure(ReadFailed(SavedVariablesPath()))
        case Some(content) =>
          var parsed := RegexFallback.ParseSpec(content, ex);
          r == if parsed.Ok? then Success(parsed.value) else Failure(ParseDiverges)
      ensures r.Success? ==> SimpleParserFacts.WellFormed(r.value)
    {
      if selectedAccount == "" {
        return Failure(NoAccountSelected);
      }
      var path := SavedVariablesPath();
      if Stat(disk.nodes, disk.faults, path).NotExist? {
        return Success(EmptyDatabase);
      }
      var content := ReadFile(disk.nodes, disk.faults, path);
      if content.None? {
        return Failure(ReadFailed(path));
      }
      var parsed := RegexFallback.Parse(content.value, ex);
      if parsed.Err? {
        return Failure(ParseDiverges);
      }
      RegexFallbackFacts.ParseWellFormed(content.value, ex);
      return Success(parsed.value);
    }

    /** GetActiveAddons: the empty map when the manifest is missing, else
        what parseAddOnsFile reads from it. */
    method GetActiveAddons(disk: Disk) returns (r: Reply<map<string, bool>>)
      ensures selectedAccount == "" ==> r == Failure(NoAccountSelected)
      ensures selectedAccount != "" && Stat(disk.nodes, disk.faults, AddOnsPath()).NotExist?
        ==> r == Success(map[])
      ensures selectedAccount != "" && !Stat(disk.nodes, disk.faults, AddOnsPath()).NotExist? ==>
        match ReadFile(disk.nodes, disk.faults, AddOnsPath())
        case None => r == Failure(ReadFailed(AddOnsPath()))
        case Some(data) => r == Success(Entries(ScanLines(data)))
    {
      if selectedAccount == "" {
        return Failure(NoAccountSelected);
      }
      var path := AddOnsPath();
      if Stat(disk.nodes, disk.faults, path).NotExist? {
        return Success(map[]);
      }
      r := ParseAddOnsFile(disk, path);
    }

    /** ApplyProfile: back up the manifest, write the profile's add-ons to
        it and prune old backups. A failed backup leaves the disk as it was
        and stops the call; a failed prune does not fail it. On success the
        manifest reads back as the profile's add-ons, and nothing but the
        manifest and its backups has changed. */
    method ApplyProfile(disk: Disk, profile: Profile, timestamp: string, now: int) returns (r: Reply<()>, ghost order: seq<Path>)
      requires disk.Valid() && backupCount >= 0
      modifies disk
      ensures disk.Valid()
      ensures selectedAccount == "" ==> r == Failure(NoAccountSelected) && disk.nodes == old(disk.nodes)
      ensures r.Failure? ==> r.error == NoAccountSelected || r.error.BackupFailed? || r.error.ManifestWriteFailed?
      ensures r.Failure? && r.error.BackupFailed? ==> disk.nodes == old(disk.nodes)
      ensures selectedAccount != "" ==>
        var backedUp := AfterBackup(old(disk.nodes), disk.faults, AddOnsPath(), timestamp, now);
        (r.Failure? && r.error.BackupFailed? <==> !BackupOk(old(disk.nodes), disk.faults, AddOnsPath(), timestamp))
        && (r.Success? <==>
             BackupOk(old(disk.nodes), disk.faults, AddOnsPath(), timestamp)
             && CanWriteManifest(backedUp, disk.faults, AddOnsPath()))
      ensures r.Failure? && r.error.ManifestWriteFailed? ==>
        var backedUp := AfterBackup(old(disk.nodes), disk.faults, AddOnsPath(), timestamp, now);
        Kept(backedUp, disk.nodes) && DirsToward(backedUp, disk.nodes, AccountPath())
      ensures r.Success? ==>
        var written := ManifestWritten(AfterBackup(old(disk.nodes), disk.faults, AddOnsPath(), timestamp, now),
                                       AddOnsPath(), profile.addons, now);
        if ReadDir(written, disk.faults, AccountPath()).None? then disk.nodes == written
        else
          Distinct(order) && NewestFirst(written, order)
          && (forall p :: p in order <==> p in BackupSet(written, AccountPath(), "AddOns.txt"))
          && disk.nodes == written - Doomed(order, backupCount, disk.faults.remove)
      ensures r.Success? ==> AddOnsPath() in disk.nodes && disk.nodes[AddOnsPath()] == File(ManifestText(profile.addons), now)
      ensures r.Success? && AddOnsPath() !in disk.faults.read && (forall name :: name in profile.addons ==> GoodName(name)) ==>
        (ReadFile(disk.nodes, disk.faults, AddOnsPath()).Some?
         && Entries(ScanLines(ReadFile(disk.nodes, disk.faults, AddOnsPath()).value)) == profile.addons)
      ensures r.Success? ==> forall q :: (q in old(disk.nodes) && q != AddOnsPath()
        && q !in BackupSet(old(disk.nodes), AccountPath(), "AddOns.txt")) ==>
        (q in disk.nodes && disk.nodes[q] == old(disk.nodes)[q])
    {
      if selectedAccount == "" {
        return Failure(NoAccountSelected), [];
      }
      var manifest := AddOnsPath();
      ghost var dir, base := AccountPath(), "AddOns.txt";
      ghost var n0 := disk.nodes;
      ghost var copied := ReadFile(n0, disk.faults, manifest);
      var backedUp := CreateBackup(disk, manifest, timestamp, now);
      if backedUp.Failure? {
        return Failure(BackupFailed(backedUp.error)), [];
      }
      ghost var n1 := disk.nodes;
      ghost var existed := !Stat(n0, disk.faults, manifest).NotExist?;
      BackupKeepsOthers(n0, n1, manifest, timestamp, existed, if existed then copied.value else "", now);
      var written := WriteAddOnsFile(disk, manifest, profile.addons, now);
      if written.Failure? {
        return Failure(ManifestWriteFailed(written.error)), [];
      }
      ghost var n2 := disk.nodes;
      var cleaned;
      cleaned, order := CleanupBackups(disk, manifest);
      ApplyKeepsOthers(n0, n1, n2, disk.nodes, manifest, cleaned.Success?, order, backupCount, disk.faults.remove);
      if manifest !in disk.faults.read && forall name :: name in profile.addons ==> GoodName(name) {
        ManifestReadBack(disk.nodes, disk.faults, manifest, profile.addons, now);
      }
      r := Success(());
    }

    /** createBackup: nothing to do when the manifest is missing; otherwise
        an exact copy of it at `<manifest>.backup.<timestamp>`. On failure
        the disk is as it was. */
    method CreateBackup(disk: Disk, manifest: Path, timestamp: string, now: int) returns (r: Reply<()>)
      requires disk.Valid() && manifest != []
      modifies disk
      ensures disk.Valid()
      ensures Stat(old(disk.nodes), disk.faults, manifest).NotExist? ==> r.Success? && disk.nodes == old(disk.nodes)
      ensures !Stat(old(disk.nodes), disk.faults, manifest).NotExist? ==>
        match ReadFile(old(disk.nodes), disk.faults, manifest)
        case None => r == Failure(ReadFailed(manifest)) && disk.nodes == old(disk.nodes)
        case Some(data) =>
          var backup := BackupPath(manifest, timestamp);
          (r.Success? <==> Writable(old(disk.nodes), disk.faults, backup))
          && (r.Failure? ==> r.error == WriteFailed(backup))
          && disk.nodes == if r.Success? then old(disk.nodes)[backup := File(data, now)] else old(disk.nodes)
      ensures r.Success? <==> BackupOk(old(disk.nodes), disk.faults, manifest, timestamp)
      ensures disk.nodes == AfterBackup(old(disk.nodes), disk.faults, manifest, timestamp, now)
    {
      if Stat(disk.nodes, disk.faults, manifest).NotExist? {
        return Success(());
      }
      var backup := BackupPath(manifest, timestamp);
      var data := ReadFile(disk.nodes, disk.faults, manifest);
      if data.None? {
        return Failure(ReadFailed(manifest));
      }
      var ok := disk.WriteFile(backup, data.value, now);
      if !ok {
        return Failure(WriteFailed(backup));
      }
      return Success(());
    }

    /** The backups among the entries of dir, in the order ranging over the
        listing yields them. */
    method BackupsIn(disk: Disk, dir: Path, base: string, entries: set<string>) returns (backups: seq<Path>)
      requires ReadDir(disk.nodes, disk.faults, dir) == Some(entries)
      ensures Distinct(backups)
      ensures forall p :: p in backups <==> p in BackupSet(disk.nodes, dir, base)
    {
      ghost var B := BackupSet(disk.nodes, dir, base);
      var prefix := BackupPrefix(base);
      backups := [];
      var todo := entries;
      while todo != {}
        invariant todo <= entries
        invariant Distinct(backups)
        invariant forall p :: p in backups <==> p in B && p[|p| - 1] !in todo
        decreases |todo|
      {
        var name :| name in todo;
        var p := dir + [name];
        var add := disk.nodes[p].File? && prefix <= name;
        ghost var before := backups;
        if add {
          backups := backups + [p];
        }
        CollectStep(disk.nodes, dir, base, before, todo, name, add, backups);
        todo := todo - {name};
      }
    }

    /** The removal loop of cleanupBackups: everything past the first
        backupCount of the order, each removal allowed to fail. */
    method RemoveOld(disk: Disk, order: seq<Path>, k: nat)
      requires disk.Valid() && Distinct(order)
      requires forall p :: p in order ==> p in disk.nodes && disk.nodes[p].File? && p != []
      modifies disk
      ensures disk.Valid()
      ensures disk.nodes == old(disk.nodes) - Doomed(order, k, disk.faults.remove)
    {
      var m := Min(k, |order|);
      for i := m to |order|
        invariant disk.Valid()
        invariant disk.nodes == old(disk.nodes) - Gone(order, m, i, disk.faults.remove)
      {
        var p := order[i];
        ghost var before := disk.nodes;
        RemoveStep(old(disk.nodes), before, order, m, i, disk.faults);
        var removed := disk.Remove(p);
        GoneAfterRemove(old(disk.nodes), before, disk.nodes, order, m, i, disk.faults.remove, removed);
      }
      GoneAll(order, k, disk.faults.remove);
    }

    /** cleanupBackups: list the manifest's directory, pick out its
        backups, order them newest first and remove all but the first
        backupCount. `order` is the order the sort produced; Retention
        states what this leaves. */
    method CleanupBackups(disk: Disk, manifest: Path) returns (r: Reply<()>, ghost order: seq<Path>)
      requires disk.Valid() && manifest != [] && backupCount >= 0
      modifies disk
      ensures disk.Valid()
      ensures r.Failure? <==> ReadDir(old(disk.nodes), disk.faults, Parent(manifest)).None?
      ensures r.Failure? ==> r.error == ListFailed(Parent(manifest)) && disk.nodes == old(disk.nodes)
      ensures r.Success? ==>
        var B := BackupSet(old(disk.nodes), Parent(manifest), manifest[|manifest| - 1]);
        Distinct(order) && NewestFirst(old(disk.nodes), order)
        && (forall p :: p in order <==> p in B)
        && disk.nodes == old(disk.nodes) - Doomed(order, backupCount, disk.faults.remove)
    {
      var dir := Parent(manifest);
      var base := manifest[|manifest| - 1];
      var entries := ReadDir(disk.nodes, disk.faults, dir);
      if entries.None? {
        return Failure(ListFailed(dir)), [];
      }
      var backups := BackupsIn(disk, dir, base, entries.value);
      var sorted := SortByAge(disk.nodes, backups);
      SortedBackups(disk.nodes, dir, base, backups);
      order := sorted;
      if |sorted| > backupCount {
        RemoveOld(disk, sorted, backupCount);
      } else {
        assert Doomed(sorted, backupCount, disk.faults.remove) == {};
      }
      r := Success(());
    }
  }
}
