/** From one phone to another: a root backup, its manifest written and read again, and its restore, composed. */
module PhoneMove {
  import opened Wrappers
  import opened AndroidDevice
  import opened PackageNames
  import opened Manifest
  import opened PackageEntries
  import opened ApkFiles
  import opened BackupManager
  import ManifestIo
  import RootBackend
  import StandardBackend

  /** One of a package's directories is captured by a root backup. */
  predicate Carried(dirs: Directories, answers: Answers, root: Root, name: string) {
    IsValidPackageName(name) && RootBackend.TakeOf(dirs, answers, root, name) == RootBackend.Taken
  }

  /** A captured directory can be written back: it is on the other phone, adb tells its owner, unpacking goes
      through, and the archive can be read again if its digest was taken. */
  predicate Arrives(had: Directories, answers: Answers, root: Root, name: string, m: Measure) {
    && RootBackend.Welcome(had, answers, root, name)
    && (m.hashes(RootBackend.ArchivePath(root, name)) ==> m.rereads(RootBackend.ArchivePath(root, name)))
  }

  predicate SomePulled(package: Package, answers: Answers) {
    exists i :: 0 <= i < |package.apkPaths| && answers.pulls(package.name, i).Pulled?
  }

  /** Everything that was captured of a package can be put on the other phone. */
  predicate Moves(package: Package, from: Directories, fromAnswers: Answers, had: Directories, answers: Answers,
                  includeApks: bool, m: Measure) {
    && (includeApks && SomePulled(package, fromAnswers) ==> answers.installs(package.name))
    && forall root | Carried(from, fromAnswers, root, package.name) :: Arrives(had, answers, root, package.name, m)
  }

  lemma {:induction false} ListedIff(name: string, paths: seq<string>, answers: Answers)
    ensures PulledPaths(name, paths, answers) != [] <==>
            exists i :: 0 <= i < |paths| && answers.pulls(name, i).Pulled?
  {
    hide LocalNames, ApkPath;
    if paths != [] {
      var last := |paths| - 1;
      ListedIff(name, paths[..last], answers);
      if PulledPaths(name, paths, answers) != [] && !answers.pulls(name, last).Pulled? {
        var i :| 0 <= i < |paths[..last]| && answers.pulls(name, i).Pulled?;
        assert i < |paths|;
      }
    }
  }

  /** Right after the backup an archive passes the check exactly if it can be read again or has no digest. */
  lemma SoundIff(e: PackageEntry, files: Files, dirs: Directories, m: Measure)
    requires Measures(m) && RootBackend.Truthful(e, files, dirs, m) && e.dataIncluded
    ensures RootBackend.Sound(e, files, m) <==>
            forall root | RootBackend.ArchiveOf(e, root) != "" ::
              m.hashes(RootBackend.ArchivePath(root, e.name)) ==> m.rereads(RootBackend.ArchivePath(root, e.name))
  {
    hide IsValidPackageName, CePath, DePath;
    assert RootBackend.ArchiveOf(e, CredentialEncrypted) == e.dataArchive;
    assert RootBackend.ArchiveOf(e, DeviceProtected) == e.deDataArchive;
  }

  /** What a root backup and its restore do for a selected package. */
  lemma MovedIff(s: Start, manifest: Manifest, includeApks: bool, e: PackageEntry, r: PackageEntry, package: Package,
                 from: Directories, fromAnswers: Answers, now: Directories, records: Records)
    requires manifest.mode == "root" && Measures(s.m) && e.name in s.filter
    requires Accounted(e, package, true, Options(true, true), from, fromAnswers)
    requires e.apkIncluded <==> e.apkFiles != []
    requires RootBackend.Truthful(e, s.files, from, s.m)
    requires Served(s, manifest, includeApks, true, e, r, false, now, records)
    ensures r.error == "" <==> Moves(package, from, fromAnswers, s.dirs, s.answers, includeApks, s.m)
  {
    hide IsValidPackageName, CePath, DePath, RootBackend.Truthful, RootBackend.TakeOf, PulledPaths, AllPulled,
         RootBackend.Restorable, DataPlaced, DataBack, RootBackend.Welcome, NoData;
    ListedIff(package.name, package.apkPaths, fromAnswers);
    CarriedIff(e, package, from, fromAnswers);
    assert Guarded(e, s.files, s.files, s.m);
    RootBackend.NeedsMet(s, e, s.files, from);
    TruthfulWanted(s, e, s.files, from);
    if e.dataIncluded { SoundIff(e, s.files, from, s.m); }
  }

  predicate SomeArchive(e: PackageEntry) {
    exists root :: RootBackend.ArchiveOf(e, root) != ""
  }

  lemma IncludedIff(e: PackageEntry, files: Files, dirs: Directories, m: Measure)
    requires RootBackend.Truthful(e, files, dirs, m)
    ensures e.dataIncluded <==> SomeArchive(e)
  {
    hide IsValidPackageName, CePath, DePath, Captured;
    assert RootBackend.ArchiveOf(e, CredentialEncrypted) == e.dataArchive;
    assert RootBackend.ArchiveOf(e, DeviceProtected) == e.deDataArchive;
  }

  lemma TruthfulWanted(s: Start, e: PackageEntry, files: Files, dirs: Directories)
    requires RootBackend.Truthful(e, files, dirs, s.m) && e.name in s.filter
    ensures RootBackend.Wanted(e, s.filter) <==> e.dataIncluded
    ensures e.dataIncluded <==> exists root :: RootBackend.ArchiveOf(e, root) != ""
  {
    hide IsValidPackageName, CePath, DePath, Captured;
    IncludedIff(e, files, dirs, s.m);
  }

  lemma CarriedIff(e: PackageEntry, package: Package, from: Directories, fromAnswers: Answers)
    requires Accounted(e, package, true, Options(true, true), from, fromAnswers)
    ensures forall root :: RootBackend.ArchiveOf(e, root) != "" <==> Carried(from, fromAnswers, root, e.name)
  {
    hide IsValidPackageName, RootBackend.TakeOf, PulledPaths, AllPulled, NoData, CaptureFails, RootBackend.ArchiveOf;
  }

  lemma MovedHolds(s: Start, manifest: Manifest, includeApks: bool, e: PackageEntry, r: PackageEntry, files: Files,
                   from: Directories, now: Directories, records: Records)
    requires manifest.mode == "root" && e.name in s.filter && r.error == ""
    requires RootBackend.Truthful(e, files, from, s.m) && Guarded(e, files, s.files, s.m)
    requires Served(s, manifest, includeApks, true, e, r, false, now, records)
    ensures forall root | RootBackend.ArchiveOf(e, root) != "" ::
              RootBackend.Held(now, s.dirs, from, s.answers, root, e.name)
  {
    hide IsValidPackageName, CePath, DePath, RootBackend.Truthful, RootBackend.Restorable, DataBack,
         RootBackend.Placed, RootBackend.Held, Guarded;
    TruthfulWanted(s, e, files, from);
    if e.dataIncluded { RootBackend.HoldsCaptured(s, e, files, from, now); }
  }

  /** A phone on which every call works. */
  ghost predicate Faultless(answers: Answers) {
    && (forall root, name :: answers.shows(root, name))
    && (forall root, name :: answers.tars(root, name).Whole?)
    && (forall root, name :: answers.tells(root, name))
    && (forall root, name :: answers.unpacks(root, name).Through?)
    && (forall root, name :: answers.misses(root, name) == {})
    && (forall name :: answers.installs(name))
  }

  /** A package all of whose directories are on the other phone: it is installed there. */
  predicate Installed(name: string, from: Directories, had: Directories) {
    IsValidPackageName(name) && forall root | (root, name) in from :: (root, name) in had
  }

  /** With no failed call an installed package moves, and all its directories are captured. */
  lemma FaultlessMoves(package: Package, from: Directories, fromAnswers: Answers, had: Directories, answers: Answers,
                       includeApks: bool, m: Measure)
    requires Faultless(fromAnswers) && Faultless(answers) && Installed(package.name, from, had)
    requires forall path :: m.rereads(path)
    ensures Moves(package, from, fromAnswers, had, answers, includeApks, m)
    ensures forall root :: Carried(from, fromAnswers, root, package.name) <==> (root, package.name) in from
  {
    hide IsValidPackageName, SomePulled, RootBackend.ArchivePath;
  }

  /** What a root backup and its restore do for one package. */
  ghost predicate Moved(s: Start, includeApks: bool, package: Package, r: PackageEntry, picked: bool, unsaved: bool,
                        stopped: bool, from: Directories, fromAnswers: Answers, now: Directories) {
    && r.name == package.name
    && (!unsaved ==> forall root :: RootBackend.ArchiveOf(r, root) != "" <==> Carried(from, fromAnswers, root, r.name))
    && (!unsaved && !stopped && picked ==>
          (r.error == "" <==> Moves(package, from, fromAnswers, s.dirs, s.answers, includeApks, s.m)))
    && (!stopped && picked && r.error == "" ==>
          forall root | RootBackend.ArchiveOf(r, root) != "" ::
            RootBackend.Held(now, s.dirs, from, s.answers, root, r.name))
    && (!picked ==> forall root :: SameAt(now, s.dirs, root, r.name))
  }

  lemma EntryMoved(s: Start, manifest: Manifest, includeApks: bool, e: PackageEntry, package: Package, r: PackageEntry,
                   unsaved: bool, stopped: bool, from: Directories, fromAnswers: Answers, now: Directories,
                   records: Records)
    requires manifest.mode == "root" && Measures(s.m) && e.name == package.name && (e.apkIncluded <==> e.apkFiles != [])
    requires RootBackend.Truthful(e, s.files, from, s.m)
    requires !unsaved ==> Accounted(e, package, true, Options(true, true), from, fromAnswers)
    requires r == e.(error := r.error)
    requires if s.filter == [] then now == s.dirs
             else Served(s, manifest, includeApks, true, e, r, stopped, now, records)
    ensures Moved(s, includeApks, package, r, e.name in s.filter, unsaved, stopped, from, fromAnswers, now)
  {
    hide IsValidPackageName, CePath, DePath, RootBackend.Truthful, Carried, Moves, RootBackend.Held, Accounted, Served,
         Guarded;
    ArchivesAside(e, r);
    if !unsaved { CarriedIff(e, package, from, fromAnswers); }
    if e.name in s.filter {
      SameGuarded(e, s.files, s.m);
      if !stopped {
        if !unsaved { MovedIff(s, manifest, includeApks, e, r, package, from, fromAnswers, now, records); }
        if r.error == "" { MovedHolds(s, manifest, includeApks, e, r, s.files, from, now, records); }
      }
    } else {
      ServedLeavesAlone(s, manifest, includeApks, e, r, stopped, now, records);
    }
  }

  lemma ArchivesAside(e: PackageEntry, r: PackageEntry)
    requires r == e.(error := r.error)
    ensures forall root :: RootBackend.ArchiveOf(r, root) == RootBackend.ArchiveOf(e, root)
  {
  }

  lemma SameGuarded(e: PackageEntry, files: Files, m: Measure)
    ensures Guarded(e, files, files, m)
  {
  }

  lemma ServedLeavesAlone(s: Start, manifest: Manifest, includeApks: bool, e: PackageEntry, r: PackageEntry,
                          stopped: bool, now: Directories, records: Records)
    requires manifest.mode == "root" && e.name !in s.filter
    requires if s.filter == [] then now == s.dirs
             else Served(s, manifest, includeApks, true, e, r, stopped, now, records)
    ensures forall root :: SameAt(now, s.dirs, root, e.name)
  {
    hide IsValidPackageName, DataBack, DataServable;
    if s.filter != [] {
      assert SameAt(now, s.dirs, CredentialEncrypted, e.name) && SameAt(now, s.dirs, DeviceProtected, e.name);
      forall root ensures SameAt(now, s.dirs, root, e.name) {
        match root
        case CredentialEncrypted =>
        case DeviceProtected =>
      }
    }
  }

  /** The other phone with the app of an entry installed, if that is asked for and works. */
  function Awaiting(was: Directories, e: PackageEntry, includeApks: bool, answers: Answers): Directories {
    if includeApks && e.apkIncluded && e.apkFiles != [] && answers.installs(e.name)
    then AfterInstall(was, e.name, answers.users(e.name)) else was
  }

  /** An app that comes with its APKs is installed on any phone, whatever directories it brings. */
  lemma InstalledByItsApks(was: Directories, e: PackageEntry, answers: Answers, from: Directories)
    requires IsValidPackageName(e.name) && e.apkIncluded && e.apkFiles != [] && answers.installs(e.name)
    ensures Installed(e.name, from, Awaiting(was, e, true, answers))
  {
    hide IsValidPackageName;
    forall root | (root, e.name) in from ensures (root, e.name) in Awaiting(was, e, true, answers) {
      match root
      case CredentialEncrypted =>
      case DeviceProtected =>
    }
  }

  /** What a package's app data finds on the other phone. */
  function Base(was: Directories, e: PackageEntry, includeApks: bool, picked: bool, answers: Answers): Directories {
    if picked then Awaiting(was, e, includeApks, answers) else was
  }

  /** Where the app data step began, and what an install makes of the phone, agree on the package. */
  lemma BaseIsReady(was: Directories, ready: Directories, packages: seq<PackageEntry>, i: nat, includeApks: bool,
                    selected: seq<string>, answers: Answers, cancelled: bool)
    requires i < |packages|
    requires if selected == [] then ready == was
             else Readied(was, ready, packages, includeApks, selected, answers, cancelled)
    ensures var e := packages[i];
            !(cancelled && e.name in selected) ==>
              AsItWas(Base(was, e, includeApks, e.name in selected, answers), ready, e.name)
  {
    hide AfterInstall;
    var e := packages[i];
    if selected == [] || !includeApks {
      SameAsItself(was);
    } else {
      assert Ready(was, ready, e, selected, answers) || (cancelled && AsItWas(was, ready, e.name));
    }
  }

  /** What is said of a package depends on its own directories only. */
  lemma Rebased(s: Start, had: Directories, includeApks: bool, package: Package, r: PackageEntry, picked: bool,
                unsaved: bool, stopped: bool, from: Directories, fromAnswers: Answers, now: Directories)
    requires Moved(s, includeApks, package, r, picked, unsaved, stopped, from, fromAnswers, now)
    requires !(stopped && picked) ==> AsItWas(had, s.dirs, r.name)
    ensures Moved(s.(dirs := had), includeApks, package, r, picked, unsaved, stopped, from, fromAnswers, now)
  {
    hide Carried, Moves, RootBackend.Held, RootBackend.ArchiveOf;
    if !(stopped && picked) {
      EachRoot(had, s.dirs, r.name);
      SameMoves(package, from, fromAnswers, s.dirs, had, s.answers, includeApks, s.m);
      forall root ensures RootBackend.Held(now, s.dirs, from, s.answers, root, r.name) <==>
                          RootBackend.Held(now, had, from, s.answers, root, r.name)
      {
        SameHeld(now, s.dirs, had, from, s.answers, root, r.name);
      }
      forall root | !picked ensures SameAt(now, had, root, r.name) {
        assert SameAt(now, s.dirs, root, r.name) && SameAt(s.dirs, had, root, r.name);
      }
    }
  }

  lemma EachRoot(a: Directories, b: Directories, name: string)
    requires AsItWas(a, b, name)
    ensures forall root :: SameAt(b, a, root, name)
  {
    forall root ensures SameAt(b, a, root, name) {
      match root
      case CredentialEncrypted =>
      case DeviceProtected =>
    }
  }

  lemma SameHeld(now: Directories, a: Directories, b: Directories, from: Directories, answers: Answers, root: Root,
                 name: string)
    requires SameAt(a, b, root, name)
    ensures RootBackend.Held(now, a, from, answers, root, name) <==> RootBackend.Held(now, b, from, answers, root, name)
  {
    hide RootBackend.Restored;
  }

  lemma SameMoves(package: Package, from: Directories, fromAnswers: Answers, a: Directories, b: Directories,
                  answers: Answers, includeApks: bool, m: Measure)
    requires forall root :: SameAt(a, b, root, package.name)
    ensures Moves(package, from, fromAnswers, a, answers, includeApks, m) <==>
            Moves(package, from, fromAnswers, b, answers, includeApks, m)
  {
    hide Carried, SomePulled;
    forall root ensures Arrives(a, answers, root, package.name, m) <==> Arrives(b, answers, root, package.name, m) {
      assert SameAt(a, b, root, package.name);
    }
  }

  /** With no failed call and no cancel, a package that was picked and is installed arrives. */
  lemma ArrivesWhole(s: Start, includeApks: bool, package: Package, r: PackageEntry, from: Directories,
                     fromAnswers: Answers, now: Directories)
    requires Moved(s, includeApks, package, r, true, false, false, from, fromAnswers, now)
    requires Faultless(fromAnswers) && Faultless(s.answers) && forall path :: s.m.rereads(path)
    requires Installed(r.name, from, s.dirs)
    ensures r.error == "" && forall root | (root, r.name) in from ::
              RootBackend.Held(now, s.dirs, from, s.answers, root, r.name) &&
              RootBackend.Owned(now, s.dirs, root, r.name)
  {
    hide Moves, Installed, RootBackend.Held, RootBackend.Owned, RootBackend.ArchiveOf, Carried;
    FaultlessMoves(package, from, fromAnswers, s.dirs, s.answers, includeApks, s.m);
    forall root | (root, r.name) in from
      ensures RootBackend.Held(now, s.dirs, from, s.answers, root, r.name)
      ensures RootBackend.Owned(now, s.dirs, root, r.name)
    {
      RootBackend.HeldMeans(now, s.dirs, from, s.answers, root, r.name);
    }
  }

  lemma SameBase(was: Directories, e: PackageEntry, r: PackageEntry, includeApks: bool, picked: bool,
                 answers: Answers)
    requires r == e.(error := r.error)
    ensures Base(was, r, includeApks, picked, answers) == Base(was, e, includeApks, picked, answers)
  {
  }

  lemma ListsPulled(e: PackageEntry, package: Package, from: Directories, fromAnswers: Answers)
    requires Accounted(e, package, true, Options(true, true), from, fromAnswers)
    ensures e.apkFiles == PulledPaths(package.name, package.apkPaths, fromAnswers)
  {
  }

  lemma StillIncluded(e: PackageEntry, r: PackageEntry, files: Files, dirs: Directories, m: Measure)
    requires RootBackend.Truthful(e, files, dirs, m) && r == e.(error := r.error)
    ensures r.dataIncluded <==> SomeArchive(r)
  {
    hide RootBackend.Truthful;
    ArchivesAside(e, r);
    IncludedIff(e, files, dirs, m);
    assert SomeArchive(e) <==> SomeArchive(r) by {
      if root :| RootBackend.ArchiveOf(e, root) != "" { assert RootBackend.ArchiveOf(r, root) != ""; }
    }
  }

  lemma SamePick(e: PackageEntry, r: PackageEntry, choice: Choice)
    requires r == e.(error := r.error)
    ensures Picked(r, choice) <==> Picked(e, choice)
  {
  }

  /** What the two workflows promise of their entries, put together. */
  lemma EachMoved(s: Start, ready: Directories, manifest: Manifest, choice: Choice, packages: seq<Package>,
                  r: seq<PackageEntry>, unsaved: bool, stopped: bool, from: Directories, fromAnswers: Answers,
                  now: Directories, records: Records)
    requires manifest.mode == "root" && Measures(s.m) && |packages| == |manifest.packages| == |r|
    requires forall i | 0 <= i < |packages| ::
               var e := manifest.packages[i];
               && e.name == packages[i].name && (e.apkIncluded <==> e.apkFiles != [])
               && RootBackend.Truthful(e, s.files, from, s.m) && r[i] == e.(error := r[i].error)
               && (e.name in s.filter <==> Picked(e, choice))
               && (!unsaved ==> Accounted(e, packages[i], true, Options(true, true), from, fromAnswers))
    requires if s.filter == [] then now == ready == s.dirs
             else
               && Readied(s.dirs, ready, manifest.packages, choice.includeApks, s.filter, s.answers, stopped)
               && forall i | 0 <= i < |r| ::
                    Served(s.(dirs := ready), manifest, choice.includeApks, true, manifest.packages[i], r[i], stopped,
                           now, records)
    ensures forall i | 0 <= i < |r| ::
              && Moved(s.(dirs := Base(s.dirs, r[i], choice.includeApks, Picked(r[i], choice), s.answers)),
                       choice.includeApks, packages[i], r[i], Picked(r[i], choice), unsaved, stopped, from, fromAnswers,
                       now)
              && (r[i].name in s.filter <==> Picked(r[i], choice)) && (r[i].dataIncluded <==> SomeArchive(r[i]))
              && (!unsaved ==> r[i].apkFiles == PulledPaths(packages[i].name, packages[i].apkPaths, fromAnswers))
  {
    hide Served, IsValidPackageName, Accounted, RootBackend.Truthful, Moved, Picked, Readied, Base, PulledPaths,
         SomeArchive;
    forall i | 0 <= i < |r|
      ensures Moved(s.(dirs := Base(s.dirs, r[i], choice.includeApks, Picked(r[i], choice), s.answers)),
                    choice.includeApks, packages[i], r[i], Picked(r[i], choice), unsaved, stopped, from, fromAnswers,
                    now)
      ensures (r[i].name in s.filter <==> Picked(r[i], choice)) && (r[i].dataIncluded <==> SomeArchive(r[i]))
      ensures !unsaved ==> r[i].apkFiles == PulledPaths(packages[i].name, packages[i].apkPaths, fromAnswers)
    {
      var e := manifest.packages[i];
      SamePick(e, r[i], choice);
      StillIncluded(e, r[i], s.files, from, s.m);
      if !unsaved { ListsPulled(e, packages[i], from, fromAnswers); }
      EntryMoved(s.(dirs := ready), manifest, choice.includeApks, e, packages[i], r[i], unsaved, stopped, from,
                 fromAnswers, now, records);
      BaseIsReady(s.dirs, ready, manifest.packages, i, choice.includeApks, s.filter, s.answers, stopped);
      SameBase(s.dirs, e, r[i], choice.includeApks, Picked(r[i], choice), s.answers);
      Rebased(s.(dirs := ready), Base(s.dirs, r[i], choice.includeApks, Picked(r[i], choice), s.answers),
              choice.includeApks, packages[i], r[i], Picked(r[i], choice), unsaved, stopped, from, fromAnswers, now);
    }
  }

  /** What the text of a manifest can hold: sizes below 10^15 and an SDK number of 32 bits. */
  ghost predicate Storable(device: Device, m: Measure) {
    Int32(device.sdkInt) && forall blob :: Size(m.size(blob))
  }

  /** A root backup of one phone and its restore onto another, in whatever state that is and whatever adb answers
      on the way, from the manifest as it was written and read again. Unless cancelled, a selected package ends
      without an error exactly if everything captured of it can be put on that phone once its app is installed; then
      the phone holds each captured directory. What was not selected has not been touched. In particular, when no
      call fails and nobody cancels, every selected package that is installed on the other phone, before or by this
      restore, arrives whole and owns its files there. */
  method MoveToAnotherPhone(source: Phone, destination: Phone, disk: Disk, backupControl: Control,
                            restoreControl: Control, packages: seq<Package>, device: Device, createdAt: string,
                            choice: Choice, m: Measure, cast: Cast)
    returns (r: seq<PackageEntry>, summary: Summary, selected: seq<string>)
    requires source != destination && backupControl != restoreControl
    requires Measures(m) && Distinct(NamesOf(packages)) && choice.includeAppData && Storable(device, m)
    requires RootBackend.NoneSpoiled(NamesOf(packages), source.dirs, source.answers)
    modifies disk, destination, backupControl, restoreControl
    ensures |r| == |packages| && forall i | 0 <= i < |r| ::
              && r[i].name == packages[i].name
              && (r[i].name in selected <==>
                  (choice.only == [] || r[i].name in choice.only) && r[i].name !in choice.exclude)
              && (r[i].dataIncluded <==> SomeArchive(r[i]))
    ensures summary.restored == CountOf(r, selected, choice.includeApks, true, Restored)
    ensures summary.restored + summary.failed + summary.skipped == |selected|
    ensures !backupControl.cancelled ==> forall i | 0 <= i < |r| ::
              && r[i].apkFiles == PulledPaths(packages[i].name, packages[i].apkPaths, source.answers)
              && forall root :: RootBackend.ArchiveOf(r[i], root) != "" <==>
                   Carried(source.dirs, source.answers, root, r[i].name)
    ensures !backupControl.cancelled && !restoreControl.cancelled ==>
              forall i | 0 <= i < |r| && r[i].name in selected ::
                var had := Awaiting(old(destination.dirs), r[i], choice.includeApks, destination.answers);
                r[i].error == "" <==> Moves(packages[i], source.dirs, source.answers, had, destination.answers,
                                            choice.includeApks, m)
    ensures !restoreControl.cancelled ==>
              forall i, root | 0 <= i < |r| && r[i].name in selected && r[i].error == "" &&
                               RootBackend.ArchiveOf(r[i], root) != "" ::
                var had := Awaiting(old(destination.dirs), r[i], choice.includeApks, destination.answers);
                RootBackend.Held(destination.dirs, had, source.dirs, destination.answers, root, r[i].name)
    ensures !backupControl.cancelled ==> forall i | 0 <= i < |r| && r[i].name !in selected ::
              Accounted(r[i], packages[i], true, Options(true, true), source.dirs, source.answers)
    ensures forall i, root | 0 <= i < |r| && r[i].name !in selected ::
              SameAt(destination.dirs, old(destination.dirs), root, r[i].name)
    ensures forall root, name | name !in NamesOf(packages) ::
              SameAt(destination.dirs, old(destination.dirs), root, name)
    ensures backupControl.Later() && restoreControl.Later()
    ensures old(backupControl.Calm()) && old(restoreControl.Calm()) && Faultless(source.answers) &&
            Faultless(destination.answers) && (forall path :: m.rereads(path)) ==>
              forall i | 0 <= i < |r| && r[i].name in selected ::
                var had := Awaiting(old(destination.dirs), r[i], choice.includeApks, destination.answers);
                Installed(r[i].name, source.dirs, had) ==>
                  && r[i].error == ""
                  && forall root | (root, r[i].name) in source.dirs ::
                       && RootBackend.Held(destination.dirs, had, source.dirs, destination.answers, root, r[i].name)
                       && RootBackend.Owned(destination.dirs, had, root, r[i].name)
  {
    hide Written, Served, IsValidPackageName, CountOf, Picks, NamesOf, Distinct, Names, Accounted, AllKept,
         OthersAlone, SameAt, RootBackend.Held, RootBackend.Owned, RootBackend.ArchiveOf, Carried, Moves, Faultless,
         Installed, Guarded, RootBackend.Truthful, Moved, Measures, Picked, Readied, Awaiting, Base, PulledPaths,
         SomeArchive, RootBackend.Kept, RootBackend.NoneSpoiled, StandardBackend.HoldsAllowed, Shaped, ManifestFits;
    var saved := RunBackup(source, disk, backupControl, packages, true, device, createdAt, Options(true, true), m);
    var manifest := ManifestIo.SaveAndLoad(saved, cast);
    Unchanged(manifest, disk.files, m);
    WrittenAsRoot(packages, manifest, disk.files, source.dirs, m);
    ghost var was := destination.dirs;
    ghost var ready;
    summary, selected, r, ready := RunRestore(destination, disk, restoreControl, manifest, choice, true, disk.files,
                                              source.dirs, m);
    PicksLiterally(manifest.packages, choice);
    ghost var s := Start(selected, disk.files, was, destination.answers, m);
    OthersMeans(s, ready, manifest, packages, choice.includeApks, destination.dirs, restoreControl.cancelled);
    EachMoved(s, ready, manifest, choice, packages, r, backupControl.cancelled, restoreControl.cancelled, source.dirs,
              source.answers, destination.dirs,
              Records(destination.installed, destination.unpacked, destination.legacyRestored));
    AllMoved(s, choice, packages, r, backupControl.cancelled, restoreControl.cancelled, source.dirs, source.answers,
             destination.dirs);
    if !backupControl.cancelled && !restoreControl.cancelled && Faultless(source.answers) &&
       Faultless(destination.answers) && forall path :: m.rereads(path) {
      AllArrive(s, choice, packages, r, source.dirs, source.answers, destination.dirs);
    }
  }

  lemma OthersMeans(s: Start, ready: Directories, manifest: Manifest, packages: seq<Package>, includeApks: bool,
                    now: Directories, cancelled: bool)
    requires OthersAlone(s.(dirs := ready), manifest, now) && manifest.mode == "root"
    requires Names(manifest.packages) == NamesOf(packages)
    requires if s.filter == [] then ready == s.dirs
             else Readied(s.dirs, ready, manifest.packages, includeApks, s.filter, s.answers, cancelled)
    ensures forall root, name | name !in NamesOf(packages) :: SameAt(now, s.dirs, root, name)
  {
    hide Ready, AsItWas;
    forall root, name | name !in NamesOf(packages) ensures SameAt(now, s.dirs, root, name) {
      assert SameAt(now, ready, root, name) && SameAt(ready, s.dirs, root, name);
    }
  }

  lemma WrittenAsRoot(packages: seq<Package>, manifest: Manifest, files: Files, dirs: Directories, m: Measure)
    requires Written(manifest, files, dirs, m) && manifest.mode == "root"
    requires Names(manifest.packages) == NamesOf(packages)
    ensures |packages| == |manifest.packages|
    ensures forall i | 0 <= i < |packages| ::
              var e := manifest.packages[i];
              && e.name == packages[i].name && (e.apkIncluded <==> e.apkFiles != [])
              && RootBackend.Truthful(e, files, dirs, m)
  {
    hide RootBackend.Truthful;
    NamesAre(packages, manifest.packages);
  }

  /** The results for the packages, as the method promises them. */
  lemma AllMoved(s: Start, choice: Choice, packages: seq<Package>, r: seq<PackageEntry>, unsaved: bool, stopped: bool,
                 from: Directories, fromAnswers: Answers, now: Directories)
    requires |r| == |packages|
    requires forall i | 0 <= i < |r| ::
               Moved(s.(dirs := Base(s.dirs, r[i], choice.includeApks, Picked(r[i], choice), s.answers)),
                     choice.includeApks, packages[i], r[i], Picked(r[i], choice), unsaved, stopped, from, fromAnswers,
                     now)
    ensures forall i | 0 <= i < |r| :: r[i].name == packages[i].name
    ensures !unsaved ==> forall i, root | 0 <= i < |r| ::
              RootBackend.ArchiveOf(r[i], root) != "" <==> Carried(from, fromAnswers, root, r[i].name)
    ensures !unsaved && !stopped ==>
              forall i | 0 <= i < |r| && Picked(r[i], choice) ::
                var had := Awaiting(s.dirs, r[i], choice.includeApks, s.answers);
                r[i].error == "" <==> Moves(packages[i], from, fromAnswers, had, s.answers, choice.includeApks, s.m)
    ensures !stopped ==>
              forall i, root | 0 <= i < |r| && Picked(r[i], choice) && r[i].error == "" &&
                               RootBackend.ArchiveOf(r[i], root) != "" ::
                var had := Awaiting(s.dirs, r[i], choice.includeApks, s.answers);
                RootBackend.Held(now, had, from, s.answers, root, r[i].name)
    ensures forall i, root | 0 <= i < |r| && !Picked(r[i], choice) :: SameAt(now, s.dirs, root, r[i].name)
  {
    hide Moves, RootBackend.Held, RootBackend.ArchiveOf, Carried, SameAt, Picked, Awaiting;
  }

  /** When no call fails and nobody cancels, every package that is installed arrives. */
  lemma AllArrive(s: Start, choice: Choice, packages: seq<Package>, r: seq<PackageEntry>, from: Directories,
                  fromAnswers: Answers, now: Directories)
    requires |r| == |packages|
    requires forall i | 0 <= i < |r| ::
               Moved(s.(dirs := Base(s.dirs, r[i], choice.includeApks, Picked(r[i], choice), s.answers)),
                     choice.includeApks, packages[i], r[i], Picked(r[i], choice), false, false, from, fromAnswers, now)
    requires Faultless(fromAnswers) && Faultless(s.answers) && forall path :: s.m.rereads(path)
    ensures forall i | 0 <= i < |r| && Picked(r[i], choice) ::
              var had := Awaiting(s.dirs, r[i], choice.includeApks, s.answers);
              Installed(r[i].name, from, had) ==>
                && r[i].error == ""
                && forall root | (root, r[i].name) in from ::
                     RootBackend.Held(now, had, from, s.answers, root, r[i].name) &&
                     RootBackend.Owned(now, had, root, r[i].name)
  {
    hide Moved, Faultless, Installed, RootBackend.Held, RootBackend.Owned, Picked, Awaiting;
    forall i | 0 <= i < |r| && Picked(r[i], choice) &&
               Installed(r[i].name, from, Awaiting(s.dirs, r[i], choice.includeApks, s.answers))
      ensures var had := Awaiting(s.dirs, r[i], choice.includeApks, s.answers);
              r[i].error == "" && forall root | (root, r[i].name) in from ::
                RootBackend.Held(now, had, from, s.answers, root, r[i].name) &&
                RootBackend.Owned(now, had, root, r[i].name)
    {
      ArrivesWhole(s.(dirs := Awaiting(s.dirs, r[i], choice.includeApks, s.answers)), choice.includeApks, packages[i],
                   r[i], from, fromAnswers, now);
    }
  }

  lemma Unchanged(manifest: Manifest, files: Files, m: Measure)
    ensures AllGuarded(manifest, files, files, m)
  {
  }

  lemma NamesAre(packages: seq<Package>, entries: seq<PackageEntry>)
    requires Names(entries) == NamesOf(packages)
    ensures |entries| == |packages| && forall i | 0 <= i < |entries| :: entries[i].name == packages[i].name
  {
    assert forall i | 0 <= i < |packages| :: NamesOf(packages)[i] == packages[i].name;
  }
}
