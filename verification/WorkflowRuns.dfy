/** Runs of the workflow that show what it lets happen: what its promises leave open does occur. */
module WorkflowRuns {
  import opened Wrappers
  import opened AndroidDevice
  import opened PackageNames
  import opened Manifest
  import opened PackageEntries
  import opened ApkFiles
  import opened BackupManager
  import opened PhoneMove
  import opened UnrootedMove
  import RootBackend
  import StandardBackend

  /** A phone on which everything works. */
  function AllWell(): Answers {
    Answers((_, _) => true, (_, _) => Whole, (_, _) => true, (_, _) => Through, (_, _) => {}, _ => true, _ => Through,
            (_, _) => Pulled, _ => true, _ => "", _ => true, true, true, (_, _) => None)
  }

  const DATA_ONLY := Choice([], [], false, true)

  lemma AllPicked(e: PackageEntry)
    ensures Picked(e, DATA_ONLY)
  {
  }

  lemma OneCounted(r: seq<PackageEntry>, selected: seq<string>)
    requires |r| == 1 && r[0].name in selected && OutcomeOf(r[0], false, true) == Restored
    ensures CountOf(r, selected, false, true, Restored) == 1
  {
    hide OutcomeOf;
    assert r[..0] == [];
    assert CountOf(r[..0], selected, false, true, Restored) == 0;
  }

  lemma OnePackage(package: Package)
    ensures NoClash(NamesOf([package])) && Distinct(NamesOf([package])) && NamesOf([package]) == [package.name]
  {
    assert |package.name + ".de"| == |package.name| + 3;
  }

  // ---------------------------------------------------------------- a check that fails

  /** Every call works but the check whether one directory exists, and nobody cancels: the entry has neither that
      directory nor an error. */
  method LeavesDirectoryOut(name: string, root: Root, dirs: Directories, device: Device, m: Measure)
    returns (e: PackageEntry)
    requires Measures(m) && IsValidPackageName(name) && (root, name) in dirs
    ensures e.name == name && e.error == "" && RootBackend.ArchiveOf(e, root) == ""
  {
    hide IsValidPackageName, Written, Accounted, RootBackend.TakeOf, Distinct, NoClash, RootBackend.Truthful,
         RootBackend.Kept, StandardBackend.HoldsAllowed, RootBackend.ArchiveOf;
    var answers := AllWell().(shows := (r, _) => r != root);
    var phone := new Phone(answers, _ => 0, dirs);
    var disk := new Disk(map[]);
    var control := new Control(None);
    var packages := [Package(name, false, [])];
    OnePackage(packages[0]);
    var manifest := RunBackup(phone, disk, control, packages, true, device, "", Options(true, true), m);
    assert Names(manifest.packages)[0] == name;
    e := manifest.packages[0];
    NothingSaid(e, packages[0], root, dirs, answers);
  }

  lemma NothingSaid(e: PackageEntry, package: Package, root: Root, dirs: Directories, answers: Answers)
    requires Accounted(e, package, true, Options(true, true), dirs, answers) && package.apkPaths == []
    requires answers == AllWell().(shows := (r, _) => r != root) && IsValidPackageName(package.name)
    ensures e.error == "" && RootBackend.ArchiveOf(e, root) == ""
  {
    hide IsValidPackageName, PulledPaths;
  }

  // ---------------------------------------------------------------- an app that allows no backup

  /** Every call works, nobody cancels, but the app is not debuggable and does not allow `adb backup`: the package
      counts as restored, and nothing has happened to the other phone. */
  method CountsWhatWasNotSaved(name: string, from: Directories, had: Directories, device: Device, m: Measure,
                               cast: Cast)
    returns (summary: Summary, now: Directories)
    requires Measures(m) && Storable(device, m)
    ensures summary.restored == 1
    ensures forall root, any :: SameAt(now, had, root, any)
  {
    hide Goes, Arrived, Awaiting, Picked, Distinct, NamesOf, CountOf, OutcomeOf, DataBack, NoClash, SameAt, WayOf;
    var answers := AllWell().(runsAs := _ => false, allows := _ => false);
    var source := new Phone(answers, _ => 0, from);
    var destination := new Phone(AllWell(), _ => 0, had);
    var disk := new Disk(map[]);
    var backupControl := new Control(None);
    var restoreControl := new Control(None);
    var packages := [Package(name, false, [])];
    OnePackage(packages[0]);
    var r, selected;
    r, summary, selected := MoveWithoutRoot(source, destination, disk, backupControl, restoreControl, packages, device,
                                            "", DATA_ONLY, m, cast);
    now := destination.dirs;
    AllPicked(r[0]);
    NotSaved(packages[0], r[0], from, answers, had, now, m);
    OneCounted(r, selected);
    forall root, any ensures SameAt(now, had, root, any) {
      if any == name { OnBothRoots(had, now, name, root); }
    }
  }

  lemma OnBothRoots(had: Directories, now: Directories, name: string, root: Root)
    requires AsItWas(had, now, name)
    ensures SameAt(now, had, root, name)
  {
    match root
    case CredentialEncrypted =>
    case DeviceProtected =>
  }

  lemma NotSaved(package: Package, r: PackageEntry, from: Directories, answers: Answers, had: Directories,
                 now: Directories, m: Measure)
    requires answers == AllWell().(runsAs := _ => false, allows := _ => false)
    ensures WayOf(from, answers, package.name) == InSharedArchive
    ensures Goes(package, from, answers, had, AllWell(), false, m)
    ensures Awaiting(had, r, false, AllWell()) == had
    ensures Arrived(package.name, InSharedArchive, answers.allows(package.name), had, from, now) ==>
              AsItWas(had, now, package.name)
  {
    hide IsValidPackageName, CePath, AsItWas, SomePulled;
  }

  // ---------------------------------------------------------------- archives of one name

  /** Every call works and nobody cancels, but one package is named like the other plus ".de": neither entry has an
      error, and the file the first one names as its device-protected data holds the other package's data. */
  method OverwritesAnArchive(name: string, dirs: Directories, device: Device, m: Measure)
    returns (e: PackageEntry, files: Files)
    requires Measures(m) && IsValidPackageName(name) && IsValidPackageName(name + ".de")
    requires (DeviceProtected, name) in dirs && (CredentialEncrypted, name + ".de") in dirs
    ensures e.name == name && e.error == "" && e.deDataArchive in files
    ensures files[e.deDataArchive] == Archive(name + ".de", dirs[(CredentialEncrypted, name + ".de")])
    ensures !RootBackend.Truthful(e, files, dirs, m)
  {
    hide IsValidPackageName, Written, Accounted, RootBackend.TakeOf, Distinct, NoClash, RootBackend.Truthful,
         RootBackend.Kept, StandardBackend.HoldsAllowed, RootBackend.ArchiveOf;
    var phone := new Phone(AllWell(), _ => 0, dirs);
    var disk := new Disk(map[]);
    var control := new Control(None);
    var packages := [Package(name, false, []), Package(name + ".de", false, [])];
    TwoPackages(packages[0], packages[1]);
    var manifest := RunBackup(phone, disk, control, packages, true, device, "", Options(true, true), m);
    assert Names(manifest.packages)[0] == name;
    e, files := manifest.packages[0], disk.files;
    OneSpoilsTheOther(name, dirs);
    WholeEntry(e, packages[0], dirs);
    WholeEntry(manifest.packages[1], packages[1], dirs);
    SharedFile(name, e, manifest.packages[1], files, dirs, m);
  }

  lemma TwoPackages(a: Package, b: Package)
    requires b.name == a.name + ".de"
    ensures Distinct(NamesOf([a, b])) && NamesOf([a, b]) == [a.name, b.name]
  {
    assert |b.name| == |a.name| + 3;
  }

  lemma OneSpoilsTheOther(name: string, dirs: Directories)
    requires IsValidPackageName(name) && IsValidPackageName(name + ".de")
    requires (DeviceProtected, name) in dirs && (CredentialEncrypted, name + ".de") in dirs
    ensures var names := [name, name + ".de"];
            && !RootBackend.Kept(names, 0, 2, names, dirs, AllWell())
            && RootBackend.Kept(names, 1, 2, names, dirs, AllWell())
  {
    hide IsValidPackageName;
    var names := [name, name + ".de"];
    assert RootBackend.Spoils(DeviceProtected, names[0], names[1], dirs, AllWell());
    assert RootBackend.Overwritten(names, 0, 2, names, DeviceProtected, dirs, AllWell());
    assert RootBackend.TakeOf(dirs, AllWell(), DeviceProtected, names[0]) == RootBackend.Taken;
  }

  lemma WholeEntry(e: PackageEntry, package: Package, dirs: Directories)
    requires Accounted(e, package, true, Options(true, true), dirs, AllWell()) && package.apkPaths == []
    requires IsValidPackageName(package.name)
    ensures e.name == package.name && e.error == ""
    ensures forall root | (root, e.name) in dirs ::
              RootBackend.ArchiveOf(e, root) == RootBackend.ArchivePath(root, e.name)
  {
    hide IsValidPackageName, PulledPaths, CePath, DePath;
  }

  lemma SharedFile(name: string, e: PackageEntry, other: PackageEntry, files: Files, dirs: Directories, m: Measure)
    requires IsValidPackageName(name) && IsValidPackageName(name + ".de")
    requires e.name == name && other.name == name + ".de" && RootBackend.Truthful(other, files, dirs, m)
    requires RootBackend.ArchiveOf(e, DeviceProtected) == RootBackend.ArchivePath(DeviceProtected, name)
    requires (CredentialEncrypted, other.name) in dirs
    requires RootBackend.ArchiveOf(other, CredentialEncrypted) ==
             RootBackend.ArchivePath(CredentialEncrypted, other.name)
    ensures e.deDataArchive in files
    ensures files[e.deDataArchive] == Archive(other.name, dirs[(CredentialEncrypted, other.name)])
  {
    hide IsValidPackageName, CePath, DePath;
    ArchivesShareAName(other.name, name);
    StandardBackend.PathIsSome(other.name);
  }

  // ---------------------------------------------------------------- files nobody owns

  /** Every call is reported as good and nobody cancels, but `chown` misses a file: the package counts as restored,
      and the file belongs to a user of the other phone. */
  method CountsWhatIsNotItsOwn(name: string, path: string, user: string, other: string, device: Device, m: Measure,
                               cast: Cast)
    returns (summary: Summary, now: Directories)
    requires Measures(m) && Storable(device, m) && (forall path :: m.rereads(path))
    requires IsValidPackageName(name) && path != ITSELF && user != other
    ensures summary.restored == 1
    ensures var key := (CredentialEncrypted, name);
            key in now && now[key].owner == user && path in now[key].files && now[key].files[path].owner == other
  {
    hide IsValidPackageName, Awaiting, Picked, Distinct, NamesOf, CountOf, OutcomeOf, NoClash, SameAt, Moves, Carried,
         RootBackend.NoneSpoiled,
         RootBackend.Held, RootBackend.Owned, Faultless, Installed, RootBackend.ArchiveOf;
    var key := (CredentialEncrypted, name);
    var from := map[key := Directory(other, map[path := Node("", other)])];
    var had := map[key := Directory(user, map[])];
    var answers := AllWell().(misses := (_, _) => {path});
    var source := new Phone(AllWell(), _ => 0, from);
    var destination := new Phone(answers, _ => 0, had);
    var disk := new Disk(map[]);
    var backupControl := new Control(None);
    var restoreControl := new Control(None);
    var packages := [Package(name, false, [])];
    OnePackage(packages[0]);
    RootBackend.NothingSpoiled(NamesOf(packages), from, AllWell());
    var r, selected;
    r, summary, selected := MoveToAnotherPhone(source, destination, disk, backupControl, restoreControl, packages,
                                               device, "", DATA_ONLY, m, cast);
    now := destination.dirs;
    AllPicked(r[0]);
    OneTreeMoves(packages[0], r[0], path, user, other, m);
    assert RootBackend.ArchiveOf(r[0], CredentialEncrypted) != "";
    CountedIfHeld(r[0]);
    OneCounted(r, selected);
  }

  lemma CountedIfHeld(r: PackageEntry)
    ensures r.error == "" && r.dataIncluded ==> OutcomeOf(r, false, true) == Restored
  {
  }

  lemma OneTreeMoves(package: Package, r: PackageEntry, path: string, user: string, other: string, m: Measure)
    requires IsValidPackageName(package.name) && user != other && path != ITSELF && forall path :: m.rereads(path)
    ensures var key := (CredentialEncrypted, package.name);
            var from := map[key := Directory(other, map[path := Node("", other)])];
            var had := map[key := Directory(user, map[])];
            var answers := AllWell().(misses := (_, _) => {path});
            && Awaiting(had, r, false, answers) == had
            && Carried(from, AllWell(), CredentialEncrypted, package.name)
            && Moves(package, from, AllWell(), had, answers, false, m)
            && forall now: Directories | RootBackend.Held(now, had, from, answers, CredentialEncrypted, package.name) ::
                 key in now && now[key].owner == user && path in now[key].files && now[key].files[path].owner == other
  {
    hide IsValidPackageName, CePath, DePath, SomePulled;
  }
}
