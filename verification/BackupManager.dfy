/** The backup and the restore as a whole: the manifest a backup writes, choosing packages, and the counts a
    restore reports. */
module BackupManager {
  import opened Wrappers
  import opened AndroidDevice
  import opened PackageNames
  import opened Manifest
  import opened PackageEntries
  import opened ApkFiles
  import RootBackend
  import StandardBackend

  // ---------------------------------------------------------------- the backup

  datatype Options = Options(includeApks: bool, includeAppData: bool)

  /** What an entry says about captured data is so. */
  predicate Honest(e: PackageEntry, root: bool, legacy: string, files: Files, dirs: Directories, m: Measure) {
    if root then RootBackend.Truthful(e, files, dirs, m) else StandardBackend.Truthful(e, legacy, files, dirs, m)
  }

  predicate Shaped(manifest: Manifest) {
    && manifest.formatVersion == 4 && manifest.mode in {"root", "standard"}
    && Distinct(Names(manifest.packages))
    && forall i | 0 <= i < |manifest.packages| ::
         manifest.packages[i].apkIncluded <==> manifest.packages[i].apkFiles != []
  }

  /** What a manifest says about its packages is so: where it names an archive of a package, that holds what the
      phone had. */
  ghost predicate Written(manifest: Manifest, files: Files, dirs: Directories, m: Measure) {
    && Shaped(manifest)
    && forall i | 0 <= i < |manifest.packages| ::
         Honest(manifest.packages[i], manifest.mode == "root", manifest.legacyAdbBackupFile, files, dirs, m)
  }

  /** A package of which nothing has been captured yet. */
  function FreshEntry(package: Package): (e: PackageEntry)
    ensures NoApks(e) && NoData(e) && e.error == ""
    ensures !e.externalDataIncluded && e.externalDataArchive == "" && e.externalDataArchiveSha256 == ""
  {
    PackageEntry(package.name, package.isSystemApp, false, [], false, NotCaptured, "", 0, "", "", 0, "", false, "", 0,
                 "", "")
  }

  function FreshEntries(packages: seq<Package>): (entries: seq<PackageEntry>)
    ensures |entries| == |packages|
  {
    seq(|packages|, i requires 0 <= i < |packages| => FreshEntry(packages[i]))
  }

  function NamesOf(packages: seq<Package>): (names: seq<string>)
    ensures |names| == |packages|
    ensures Names(FreshEntries(packages)) == names
  {
    var names := seq(|packages|, i requires 0 <= i < |packages| => packages[i].name);
    assert Names(FreshEntries(packages)) == names;
    names
  }

  /** Says of every package the cancel came before that it was not captured. */
  method MarkCancelled(entries: seq<PackageEntry>) returns (r: seq<PackageEntry>)
    ensures |r| == |entries|
    ensures forall i | 0 <= i < |r| ::
              var e := entries[i];
              r[i] == if !e.apkIncluded && !e.dataIncluded && e.error == "" then e.(error := CANCELLED) else e
  {
    r := entries;
    for i := 0 to |entries|
      invariant |r| == |entries| && forall j | i <= j < |r| :: r[j] == entries[j]
      invariant forall j | 0 <= j < i ::
                  var e := entries[j];
                  r[j] == if !e.apkIncluded && !e.dataIncluded && e.error == "" then e.(error := CANCELLED) else e
    {
      if !r[i].apkIncluded && !r[i].dataIncluded && r[i].error == "" { r := r[i := r[i].(error := CANCELLED)]; }
    }
  }

  /** Nothing is claimed for an entry without data, and an error claims nothing about data. */
  lemma StillHonest(captured: PackageEntry, e: PackageEntry, root: bool, legacy: string, files: Files,
                    dirs: Directories, m: Measure)
    requires e == captured.(error := e.error)
    ensures Honest(e, root, legacy, files, dirs, m) <==> Honest(captured, root, legacy, files, dirs, m)
  {
    hide IsValidPackageName, Captured, CePath, DePath;
  }

  lemma HonestAsRoot(e: PackageEntry, legacy: string, files: Files, dirs: Directories, m: Measure)
    ensures Honest(e, true, legacy, files, dirs, m) <==> RootBackend.Truthful(e, files, dirs, m)
  {
  }

  lemma NoDataHonest(e: PackageEntry, root: bool, legacy: string, files: Files, dirs: Directories, m: Measure)
    requires NoData(e)
    ensures Honest(e, root, legacy, files, dirs, m)
  {
    hide IsValidPackageName, Captured, CePath, DePath;
  }

  /** Whether capturing a package's data ends in an error: as root if its name is not one or `tar` failed on a
      directory the phone showed, otherwise if neither `run-as` nor the shared archive worked. */
  predicate CaptureFails(root: bool, name: string, dirs: Directories, answers: Answers) {
    if root then
      || !IsValidPackageName(name)
      || RootBackend.TakeOf(dirs, answers, CredentialEncrypted, name) == RootBackend.TakeFailed
      || RootBackend.TakeOf(dirs, answers, DeviceProtected, name) == RootBackend.TakeFailed
    else !StandardBackend.Reachable(dirs, answers, name) && !answers.backsUp
  }

  /** What a backup that was not cancelled says about a package. */
  ghost predicate Accounted(e: PackageEntry, package: Package, root: bool, options: Options, dirs: Directories,
                            answers: Answers) {
    && e.name == package.name && e.isSystemApp == package.isSystemApp
    && e.apkFiles == (if options.includeApks then PulledPaths(package.name, package.apkPaths, answers) else [])
    && (e.error != "" <==>
        || (options.includeApks && !AllPulled(package.name, package.apkPaths, answers))
        || (options.includeAppData && CaptureFails(root, package.name, dirs, answers)))
    && (options.includeAppData && root ==> forall tree ::
          && (RootBackend.ArchiveOf(e, tree) != "" <==>
              IsValidPackageName(package.name) &&
              RootBackend.TakeOf(dirs, answers, tree, package.name) == RootBackend.Taken)
          && RootBackend.ArchiveOf(e, tree) in {"", RootBackend.ArchivePath(tree, package.name)})
    && (options.includeAppData && !root ==>
          && (e.dataCaptureMethod == RunAsTar <==> StandardBackend.Reachable(dirs, answers, package.name))
          && (e.dataIncluded <==> StandardBackend.Reachable(dirs, answers, package.name) || answers.backsUp))
    && (!options.includeAppData ==> NoData(e))
  }

  /** An entry after the APKs: as it was made, or with the APKs that could be pulled. */
  ghost predicate PulledEntry(e: PackageEntry, package: Package, answers: Answers) {
    e == FreshEntry(package) || Extracted(FreshEntry(package), e, package, answers)
  }

  lemma PulledHolds(e: PackageEntry, package: Package, answers: Answers)
    requires PulledEntry(e, package, answers)
    ensures NoData(e) && e.name == package.name && e.isSystemApp == package.isSystemApp
    ensures e.externalDataArchiveBytes == 0
    ensures e.apkIncluded <==> e.apkFiles != []
  {
  }

  /** An entry after the step that captures data, if that is not cancelled. */
  function CapturedEntry(e: PackageEntry, root: bool, includeAppData: bool, dirs: Directories, answers: Answers,
                         m: Measure): PackageEntry {
    if !includeAppData then e
    else if root then RootBackend.BackedUp(e, dirs, answers, m)
    else StandardBackend.BackedUp(e, dirs, answers, m)
  }

  lemma EntryAccounted(e: PackageEntry, captured: PackageEntry, package: Package, root: bool, options: Options,
                       dirs: Directories, answers: Answers, m: Measure)
    requires if options.includeApks then Extracted(FreshEntry(package), e, package, answers)
             else e == FreshEntry(package)
    requires captured == CapturedEntry(e, root, options.includeAppData, dirs, answers, m)
    ensures Accounted(captured, package, root, options, dirs, answers)
  {
    hide PulledPaths, AllPulled, IsValidPackageName, RootBackend.BackedUp, StandardBackend.BackedUp,
         StandardBackend.Reachable, RootBackend.TakeOf;
    PulledHolds(e, package, answers);
    RootBackend.BackedUpIff(e, dirs, answers, m);
    StandardBackend.BackedUpIff(e, dirs, answers, m);
  }

  /** Capturing data leaves the APK fields of an entry alone. */
  lemma SameApks(e: PackageEntry, root: bool, includeAppData: bool, dirs: Directories, answers: Answers, m: Measure)
    requires NoData(e)
    ensures var r := CapturedEntry(e, root, includeAppData, dirs, answers, m);
            r.name == e.name && r.apkIncluded == e.apkIncluded && r.apkFiles == e.apkFiles
  {
    hide IsValidPackageName, RootBackend.BackedUp, StandardBackend.BackedUp, StandardBackend.Reachable,
         RootBackend.TakeOf;
    RootBackend.BackedUpIff(e, dirs, answers, m);
    StandardBackend.BackedUpIff(e, dirs, answers, m);
  }

  /** Archives of app data do not overwrite APKs. */
  lemma ArchivesKeepApks(was: Files, now: Files, packages: seq<Package>, n: nat, answers: Answers, apks: Apks)
    requires AllKept(was, packages, n, answers, apks) && OnlyArchives(now, was)
    ensures AllKept(now, packages, n, answers, apks)
  {
    hide AllPulled, NoClashes, AllDiffer, SanitizeForFilename, LocalNames;
    if OwnDirs(packages) {
      forall i: nat | i < n && AllPulled(packages[i].name, packages[i].apkPaths, answers)
        ensures KeptIff(now, packages[i], apks)
      {
        var package := packages[i];
        forall k: nat | k < |package.apkPaths|
          ensures var path := ApkPath(package.name, LocalNames(package.apkPaths)[k]);
                  (path in now <==> path in was) && (path in now ==> now[path] == was[path])
        {
          NoArchive(package.name, LocalNames(package.apkPaths)[k]);
        }
        assert ApksKept(now, package, apks) <==> ApksKept(was, package, apks);
      }
    }
  }

  lemma NoArchive(name: string, file: string)
    ensures !("data/" <= ApkPath(name, file)) && ApkPath(name, file) != LEGACY
  {
    assert ApkPath(name, file)[0] == 'a' && LEGACY[0] == 'l' && "data/"[0] == 'd';
  }

  lemma FreshNames(packages: seq<Package>)
    ensures Names(FreshEntries(packages)) == NamesOf(packages)
    ensures forall i | 0 <= i < |packages| ::
              FreshEntries(packages)[i].name == packages[i].name && NoApks(FreshEntries(packages)[i])
    ensures forall i | 0 <= i < |packages| :: FreshEntries(packages)[i] == FreshEntry(packages[i])
  {
  }

  /** The first part of a backup. */
  method PullAll(phone: Phone, disk: Disk, control: Control, packages: seq<Package>, includeApks: bool)
    returns (r: seq<PackageEntry>)
    requires Distinct(NamesOf(packages))
    modifies disk, control
    ensures |r| == |packages| && forall i | 0 <= i < |r| :: PulledEntry(r[i], packages[i], phone.answers)
    ensures !control.cancelled ==>
              && (forall i | 0 <= i < |r| ::
                    if includeApks then Extracted(FreshEntry(packages[i]), r[i], packages[i], phone.answers)
                    else r[i] == FreshEntry(packages[i]))
              && (includeApks ==> AllKept(disk.files, packages, |packages|, phone.answers, phone.apks))
    ensures control.Later()
  {
    hide Extracted, FreshEntry, FreshEntries, Distinct, AllKept, NoApks;
    FreshNames(packages);
    var entries := FreshEntries(packages);
    NoneKept(disk.files, packages, phone.answers, phone.apks);
    r := entries;
    var cancelled := control.Requested();
    if includeApks && packages != [] && !cancelled {
      r := ExtractApks(phone, disk, control, packages, entries);
    }
  }

  /** The second part. */
  method CaptureAll(phone: Phone, disk: Disk, control: Control, entries: seq<PackageEntry>, root: bool,
                    includeAppData: bool, m: Measure)
    returns (r: seq<PackageEntry>, legacy: string)
    requires Measures(m) && Distinct(Names(entries))
    requires forall i | 0 <= i < |entries| :: NoData(entries[i])
    modifies disk, control
    ensures |r| == |entries|
    ensures !root || !includeAppData || RootBackend.NoneSpoiled(Names(entries), phone.dirs, phone.answers) ==>
              forall i | 0 <= i < |r| :: Honest(r[i], root, legacy, disk.files, phone.dirs, m)
    ensures root && includeAppData && !control.cancelled ==> forall i | 0 <= i < |r| ::
              Honest(r[i], root, legacy, disk.files, phone.dirs, m) <==>
              RootBackend.Kept(Names(entries), i, |r|, Names(entries), phone.dirs, phone.answers)
    ensures legacy != "" ==>
              && !root && legacy == LEGACY && LEGACY in disk.files && phone.answers.backsUp
              && StandardBackend.HoldsAllowed(disk.files[LEGACY], Names(entries), Names(entries), phone.dirs,
                                              phone.answers)
    ensures forall i | 0 <= i < |r| :: r[i] == entries[i] ||
              r[i] == CapturedEntry(entries[i], root, includeAppData, phone.dirs, phone.answers, m)
    ensures !control.cancelled ==> forall i | 0 <= i < |r| ::
              r[i] == CapturedEntry(entries[i], root, includeAppData, phone.dirs, phone.answers, m)
    ensures OnlyArchives(disk.files, old(disk.files))
    ensures control.Later()
  {
    hide RootBackend.Truthful, StandardBackend.Truthful, IsValidPackageName, RootBackend.BackedUp,
         StandardBackend.BackedUp, Distinct, NoData, StandardBackend.SomeLeft, RootBackend.Kept,
         RootBackend.NoneSpoiled,
         StandardBackend.HoldsAllowed;
    r, legacy := entries, "";
    forall i | 0 <= i < |r| { NoDataHonest(r[i], root, legacy, disk.files, phone.dirs, m); }
    var cancelled := control.Requested();
    if includeAppData && entries != [] && !cancelled {
      var names := Names(entries);
      assert forall i | 0 <= i < |entries| :: entries[i].name == names[i] && names[i] in names;
      if root {
        ghost var done;
        r, done := RootBackend.BackupAppData(phone, disk, control, names, entries, m);
        TurnsTold(entries, r, names, done, disk.files, phone.dirs, phone.answers, m);
      } else {
        r, legacy := StandardBackend.BackupAppData(phone, disk, control, names, entries, m);
      }
    }
  }

  /** What the entries of a root backup say, as the whole backup looks at it. */
  lemma TurnsTold(entries: seq<PackageEntry>, r: seq<PackageEntry>, names: seq<string>, done: nat, files: Files,
                  dirs: Directories, answers: Answers, m: Measure)
    requires |r| == |entries| && names == Names(entries) && done <= |names| && Distinct(names)
    requires forall i | 0 <= i < |r| && entries[i].name !in names[..done] :: RootBackend.Truthful(r[i], files, dirs, m)
    requires forall i, n: nat | 0 <= i < |r| && n < done && entries[i].name == names[n] ::
               RootBackend.Truthful(r[i], files, dirs, m) <==>
               RootBackend.Kept(names, n, done, names, dirs, answers)
    ensures RootBackend.NoneSpoiled(names, dirs, answers) ==>
              forall i | 0 <= i < |r| :: RootBackend.Truthful(r[i], files, dirs, m)
    ensures done == |names| ==> forall i | 0 <= i < |r| ::
              RootBackend.Truthful(r[i], files, dirs, m) <==>
              RootBackend.Kept(names, i, |r|, names, dirs, answers)
  {
    hide RootBackend.Truthful, RootBackend.Kept, Distinct;
    forall i | 0 <= i < |r| && RootBackend.NoneSpoiled(names, dirs, answers)
      ensures RootBackend.Truthful(r[i], files, dirs, m)
    {
      if i < done {
        assert entries[i].name == names[i];
        RootBackend.KeptSooner(names, i, done, dirs, answers);
      } else {
        LaterTurn(names, i, done);
      }
    }
  }

  lemma LaterTurn(names: seq<string>, i: nat, done: nat)
    requires Distinct(names) && done <= i < |names|
    ensures names[i] !in names[..done]
  {
  }

  lemma PulledAllHold(entries: seq<PackageEntry>, packages: seq<Package>, answers: Answers)
    requires |entries| == |packages| && forall i | 0 <= i < |entries| :: PulledEntry(entries[i], packages[i], answers)
    ensures forall i | 0 <= i < |entries| :: NoData(entries[i]) && entries[i].name == packages[i].name
    ensures forall i | 0 <= i < |entries| ::
              (entries[i].apkIncluded <==> entries[i].apkFiles != []) && entries[i].externalDataArchiveBytes == 0
    ensures Names(entries) == NamesOf(packages)
  {
    hide PulledEntry, NoData;
    forall i | 0 <= i < |entries|
      ensures NoData(entries[i]) && entries[i].name == packages[i].name
      ensures (entries[i].apkIncluded <==> entries[i].apkFiles != []) && entries[i].externalDataArchiveBytes == 0
    {
      PulledHolds(entries[i], packages[i], answers);
    }
    FreshNames(packages);
    assert Names(entries) == NamesOf(packages);
  }

  lemma StillShared(entries: seq<PackageEntry>, names: seq<string>, i: nat, r: PackageEntry, blob: Blob,
                    includeAppData: bool, dirs: Directories, answers: Answers, m: Measure)
    requires i < |entries| && NoData(entries[i]) && names == Names(entries) && r.dataCaptureMethod == LegacyAdbBackup
    requires r == entries[i] || r == CapturedEntry(entries[i], false, includeAppData, dirs, answers, m)
    requires StandardBackend.HoldsAllowed(blob, names, names, dirs, answers)
    ensures names[i] in HeldBy(blob) <==> answers.allows(names[i])
  {
    hide StandardBackend.HoldsAllowed, StandardBackend.BackedUp, Names, NoData;
    assert names[i] in names;
    SharedName(entries[i], includeAppData, dirs, answers, m);
    StandardBackend.SharedIffAllowed(entries, names, i, r, blob, dirs, answers, m);
  }

  lemma SharedName(e: PackageEntry, includeAppData: bool, dirs: Directories, answers: Answers, m: Measure)
    requires NoData(e)
    ensures CapturedEntry(e, false, includeAppData, dirs, answers, m).name == e.name
  {
    SameApks(e, false, includeAppData, dirs, answers, m);
  }

  lemma EntryFits(e: PackageEntry, captured: PackageEntry, root: bool, includeAppData: bool, dirs: Directories,
                  answers: Answers, m: Measure)
    requires NoData(e) && e.externalDataArchiveBytes == 0
    requires captured == e || captured == CapturedEntry(e, root, includeAppData, dirs, answers, m)
    ensures (forall blob :: Size(m.size(blob))) ==> PackageFits(captured)
  {
    hide IsValidPackageName, CePath, DePath, RootBackend.CaptureError, RootBackend.TakeOf, RootBackend.PartAt;
    if forall blob :: Size(m.size(blob)) {
      assert Size(0) && Size(e.externalDataArchiveBytes);
      forall tree ensures Size(RootBackend.PartAt(dirs, answers, tree, e.name, m).length) {
        PartFits(dirs, answers, tree, e.name, m);
      }
      if captured != e && includeAppData && !root && StandardBackend.Reachable(dirs, answers, e.name) {
        assert Size(m.size(Archive(e.name, dirs[(CredentialEncrypted, e.name)])));
      }
    }
  }

  lemma PartFits(dirs: Directories, answers: Answers, root: Root, name: string, m: Measure)
    requires forall blob :: Size(m.size(blob))
    ensures Size(RootBackend.PartAt(dirs, answers, root, name, m).length)
  {
    hide RootBackend.TakeOf;
    if RootBackend.TakeOf(dirs, answers, root, name) == RootBackend.Taken {
      RootBackend.TakenIsThere(dirs, answers, root, name);
      assert Size(m.size(Archive(name, dirs[(root, name)])));
    }
  }

  /** What the final entries of a backup say. */
  lemma Concluded(pulled: seq<PackageEntry>, captured: seq<PackageEntry>, entries: seq<PackageEntry>,
                  packages: seq<Package>, root: bool, legacy: string, options: Options, cancelled: bool, files: Files,
                  dirs: Directories, answers: Answers, m: Measure)
    requires |pulled| == |captured| == |entries| == |packages| && Names(pulled) == NamesOf(packages)
    requires forall i | 0 <= i < |pulled| :: NoData(pulled[i]) && pulled[i].name == packages[i].name
    requires forall i | 0 <= i < |pulled| ::
               (pulled[i].apkIncluded <==> pulled[i].apkFiles != []) && pulled[i].externalDataArchiveBytes == 0
    requires forall i | 0 <= i < |captured| :: captured[i] == pulled[i] ||
               captured[i] == CapturedEntry(pulled[i], root, options.includeAppData, dirs, answers, m)
    requires forall i | 0 <= i < |entries| :: entries[i] == captured[i].(error := entries[i].error)
    requires legacy != "" ==>
               && !root && LEGACY in files
               && StandardBackend.HoldsAllowed(files[LEGACY], Names(pulled), Names(pulled), dirs, answers)
    requires !cancelled ==> entries == captured && forall i | 0 <= i < |entries| ::
               && captured[i] == CapturedEntry(pulled[i], root, options.includeAppData, dirs, answers, m)
               && if options.includeApks then Extracted(FreshEntry(packages[i]), pulled[i], packages[i], answers)
                  else pulled[i] == FreshEntry(packages[i])
    ensures Names(entries) == NamesOf(packages)
    ensures forall i | 0 <= i < |entries| ::
              && (entries[i].apkIncluded <==> entries[i].apkFiles != [])
              && (Honest(entries[i], root, legacy, files, dirs, m) <==>
                  Honest(captured[i], root, legacy, files, dirs, m))
              && (root ==> (RootBackend.Truthful(entries[i], files, dirs, m) <==>
                            Honest(captured[i], root, legacy, files, dirs, m)))
              && (legacy != "" && entries[i].dataCaptureMethod == LegacyAdbBackup ==>
                    (packages[i].name in HeldBy(files[LEGACY]) <==> answers.allows(packages[i].name)))
              && (!cancelled ==> Accounted(entries[i], packages[i], root, options, dirs, answers))
              && ((forall blob :: Size(m.size(blob))) ==> PackageFits(entries[i]))
  {
    hide IsValidPackageName, Extracted, Accounted, CapturedEntry, FreshEntry, NoData, Honest, RootBackend.Truthful,
         StandardBackend.HoldsAllowed, HeldBy;
    var names := NamesOf(packages);
    forall i | 0 <= i < |entries|
      ensures entries[i].name == names[i] && (entries[i].apkIncluded <==> entries[i].apkFiles != [])
      ensures Honest(entries[i], root, legacy, files, dirs, m) <==> Honest(captured[i], root, legacy, files, dirs, m)
      ensures root ==> (RootBackend.Truthful(entries[i], files, dirs, m) <==>
                        Honest(captured[i], root, legacy, files, dirs, m))
      ensures legacy != "" && entries[i].dataCaptureMethod == LegacyAdbBackup ==>
                (names[i] in HeldBy(files[LEGACY]) <==> answers.allows(names[i]))
      ensures !cancelled ==> Accounted(entries[i], packages[i], root, options, dirs, answers)
      ensures (forall blob :: Size(m.size(blob))) ==> PackageFits(entries[i])
    {
      SameApks(pulled[i], root, options.includeAppData, dirs, answers, m);
      EntryFits(pulled[i], captured[i], root, options.includeAppData, dirs, answers, m);
      StillHonest(captured[i], entries[i], root, legacy, files, dirs, m);
      HonestAsRoot(entries[i], legacy, files, dirs, m);
      if legacy != "" && entries[i].dataCaptureMethod == LegacyAdbBackup {
        StillShared(pulled, names, i, captured[i], files[LEGACY], options.includeAppData, dirs, answers, m);
      }
      if !cancelled { EntryAccounted(pulled[i], captured[i], packages[i], root, options, dirs, answers, m); }
    }
    FreshNames(packages);
    assert Names(entries) == names;
  }

  /** A backup, from the package list on, whatever adb answers and whenever the user cancels. What the manifest says
      about archives is so, except that in a root backup an entry tells the truth exactly if no later turn spoiled
      its archives, and that the shared archive holds a package that counts on it exactly if its app allows that.
      Unless cancelled every package is accounted for: its entry has an error exactly if something could not be had,
      and otherwise all there was. In a cancelled backup every package nothing was captured for says so. */
  method RunBackup(phone: Phone, disk: Disk, control: Control, packages: seq<Package>, root: bool, device: Device,
                   createdAt: string, options: Options, m: Measure)
    returns (manifest: Manifest)
    requires Measures(m) && Distinct(NamesOf(packages))
    modifies disk, control
    ensures Shaped(manifest) && Names(manifest.packages) == NamesOf(packages)
    ensures !root || !options.includeAppData ||
            RootBackend.NoneSpoiled(NamesOf(packages), phone.dirs, phone.answers) ==>
              Written(manifest, disk.files, phone.dirs, m)
    ensures root && options.includeAppData && !control.cancelled ==> forall i | 0 <= i < |packages| ::
              RootBackend.Truthful(manifest.packages[i], disk.files, phone.dirs, m) <==>
              RootBackend.Kept(NamesOf(packages), i, |packages|, NamesOf(packages), phone.dirs, phone.answers)
    ensures manifest.legacyAdbBackupFile != "" ==>
              && !root && manifest.legacyAdbBackupFile == LEGACY && LEGACY in disk.files && phone.answers.backsUp
              && StandardBackend.HoldsAllowed(disk.files[LEGACY], NamesOf(packages), NamesOf(packages), phone.dirs,
                                              phone.answers)
              && forall i | 0 <= i < |packages| && manifest.packages[i].dataCaptureMethod == LegacyAdbBackup ::
                   packages[i].name in HeldBy(disk.files[LEGACY]) <==> phone.answers.allows(packages[i].name)
    ensures manifest.mode == if root then "root" else "standard"
    ensures !control.cancelled ==>
              && (forall i | 0 <= i < |packages| ::
                    Accounted(manifest.packages[i], packages[i], root, options, phone.dirs, phone.answers))
              && (options.includeApks ==> AllKept(disk.files, packages, |packages|, phone.answers, phone.apks))
    ensures control.cancelled ==>
              forall i | 0 <= i < |manifest.packages| ::
                var e := manifest.packages[i]; e.apkIncluded || e.dataIncluded || e.error != ""
    ensures Int32(device.sdkInt) && (forall blob :: Size(m.size(blob))) ==> ManifestFits(manifest)
    ensures control.Later()
  {
    hide IsValidPackageName, Extracted, AllKept, Accounted, CapturedEntry, FreshEntry, Distinct, PulledEntry,
         PackageFits, RootBackend.NoneSpoiled, OnlyArchives, NoData, Honest, RootBackend.Truthful, RootBackend.Kept,
         StandardBackend.HoldsAllowed;
    var names := NamesOf(packages);
    var entries := PullAll(phone, disk, control, packages, options.includeApks);
    ghost var pulled, was := entries, disk.files;
    PulledAllHold(pulled, packages, phone.answers);
    var legacy;
    entries, legacy := CaptureAll(phone, disk, control, entries, root, options.includeAppData, m);
    ghost var captured := entries;
    var cancelled := control.Requested();
    if cancelled {
      entries := MarkCancelled(entries);
    } else if options.includeApks {
      ArchivesKeepApks(was, disk.files, packages, |packages|, phone.answers, phone.apks);
    }
    Concluded(pulled, captured, entries, packages, root, legacy, options, cancelled, disk.files, phone.dirs,
              phone.answers, m);
    manifest := Manifest(4, "", createdAt, if root then "root" else "standard", device, false, false, "", 0, "", legacy,
                         [], [], entries);
  }

  // ---------------------------------------------------------------- the restore

  datatype Choice = Choice(only: seq<string>, exclude: seq<string>, includeApks: bool, includeAppData: bool)

  predicate Picked(e: PackageEntry, choice: Choice) {
    (choice.only == [] || e.name in choice.only) && e.name !in choice.exclude
  }

  function Picks(entries: seq<PackageEntry>, choice: Choice): seq<string> {
    if entries == [] then []
    else
      var last := entries[|entries| - 1];
      Picks(entries[..|entries| - 1], choice) + if Picked(last, choice) then [last.name] else []
  }

  /** The selection holds exactly the names that are picked. */
  lemma {:induction false} PicksExactly(entries: seq<PackageEntry>, choice: Choice)
    ensures forall i | 0 <= i < |entries| ::
              entries[i].name in Picks(entries, choice) <==>
              (choice.only == [] || entries[i].name in choice.only) && entries[i].name !in choice.exclude
    ensures forall name | name in Picks(entries, choice) ::
              exists i :: 0 <= i < |entries| && entries[i].name == name && Picked(entries[i], choice)
  {
    if entries != [] {
      var before := entries[..|entries| - 1];
      PicksExactly(before, choice);
      var last := entries[|entries| - 1];
      forall i | 0 <= i < |entries| ensures entries[i].name in Picks(entries, choice) <==> Picked(entries[i], choice) {
        if i < |before| { assert before[i] == entries[i]; }
      }
      forall name | name in Picks(entries, choice)
        ensures exists i :: 0 <= i < |entries| && entries[i].name == name && Picked(entries[i], choice)
      {
        if name in Picks(before, choice) {
          var i :| 0 <= i < |before| && before[i].name == name && Picked(before[i], choice);
          assert entries[i] == before[i];
        } else {
          assert entries[|entries| - 1].name == name && Picked(last, choice);
        }
      }
    }
  }

  function Cleared(e: PackageEntry, choice: Choice): PackageEntry {
    if Picked(e, choice) then e.(error := "") else e
  }

  /** The selection; what went wrong when the selected packages were backed up is forgotten. */
  method Select(entries: seq<PackageEntry>, choice: Choice) returns (r: seq<PackageEntry>, selected: seq<string>)
    ensures selected == Picks(entries, choice)
    ensures |r| == |entries| && forall i | 0 <= i < |r| :: r[i] == Cleared(entries[i], choice)
    ensures forall i | 0 <= i < |r| ::
              r[i] == if (choice.only == [] || entries[i].name in choice.only) && entries[i].name !in choice.exclude
                      then entries[i].(error := "") else entries[i]
  {
    r, selected := entries, [];
    for k := 0 to |entries|
      invariant selected == Picks(entries[..k], choice)
      invariant |r| == |entries| && forall i | k <= i < |r| :: r[i] == entries[i]
      invariant forall i | 0 <= i < k :: r[i] == Cleared(entries[i], choice)
    {
      assert entries[..k + 1][..k] == entries[..k];
      var e := r[k];
      if (choice.only == [] || e.name in choice.only) && e.name !in choice.exclude {
        selected := selected + [e.name];
        r := r[k := e.(error := "")];
      }
    }
    assert entries[..|entries|] == entries;
  }

  datatype Outcome = Restored | Failed | Skipped
  datatype Summary = Summary(restored: nat, failed: nat, skipped: nat)

  /** How a selected package counts. */
  function OutcomeOf(e: PackageEntry, includeApks: bool, dataAttempted: bool): Outcome {
    if e.error != "" then Failed
    else if (includeApks && e.apkIncluded && e.apkFiles != []) || (dataAttempted && e.dataIncluded) then Restored
    else Skipped
  }

  function CountOf(entries: seq<PackageEntry>, selected: seq<string>, includeApks: bool, dataAttempted: bool,
                   outcome: Outcome): nat {
    if entries == [] then 0
    else
      var last := entries[|entries| - 1];
      CountOf(entries[..|entries| - 1], selected, includeApks, dataAttempted, outcome) +
      if last.name in selected && OutcomeOf(last, includeApks, dataAttempted) == outcome then 1 else 0
  }

  /** One entry more. */
  lemma CountStep(entries: seq<PackageEntry>, k: nat, selected: seq<string>, includeApks: bool, dataAttempted: bool,
                  outcome: Outcome)
    requires k < |entries|
    ensures CountOf(entries[..k + 1], selected, includeApks, dataAttempted, outcome) ==
            CountOf(entries[..k], selected, includeApks, dataAttempted, outcome) +
            if entries[k].name in selected && OutcomeOf(entries[k], includeApks, dataAttempted) == outcome then 1 else 0
  {
    hide OutcomeOf;
    assert entries[..k + 1][..k] == entries[..k];
  }

  method Count(entries: seq<PackageEntry>, selected: seq<string>, includeApks: bool, dataAttempted: bool)
    returns (summary: Summary)
    ensures summary.restored == CountOf(entries, selected, includeApks, dataAttempted, Restored)
    ensures summary.failed == CountOf(entries, selected, includeApks, dataAttempted, Failed)
    ensures summary.skipped == CountOf(entries, selected, includeApks, dataAttempted, Skipped)
  {
    hide CountOf;
    var restored: nat, failed: nat, skipped: nat := 0, 0, 0;
    NoneCounted(selected, includeApks, dataAttempted);
    for k := 0 to |entries|
      invariant restored == CountOf(entries[..k], selected, includeApks, dataAttempted, Restored)
      invariant failed == CountOf(entries[..k], selected, includeApks, dataAttempted, Failed)
      invariant skipped == CountOf(entries[..k], selected, includeApks, dataAttempted, Skipped)
    {
      CountStep(entries, k, selected, includeApks, dataAttempted, Restored);
      CountStep(entries, k, selected, includeApks, dataAttempted, Failed);
      CountStep(entries, k, selected, includeApks, dataAttempted, Skipped);
      var e := entries[k];
      if e.name in selected {
        if e.error != "" { failed := failed + 1; }
        else {
          var apkRestored := includeApks && e.apkIncluded && e.apkFiles != [];
          var dataRestored := dataAttempted && e.dataIncluded;
          if apkRestored || dataRestored { restored := restored + 1; } else { skipped := skipped + 1; }
        }
      }
    }
    assert entries[..|entries|] == entries;
    summary := Summary(restored, failed, skipped);
  }

  lemma NoneCounted(selected: seq<string>, includeApks: bool, dataAttempted: bool)
    ensures forall outcome :: CountOf([], selected, includeApks, dataAttempted, outcome) == 0
  {
  }

  lemma {:induction false} NoneSelected(entries: seq<PackageEntry>, includeApks: bool, dataAttempted: bool)
    ensures forall outcome :: CountOf(entries, [], includeApks, dataAttempted, outcome) == 0
  {
    if entries != [] { NoneSelected(entries[..|entries| - 1], includeApks, dataAttempted); }
  }

  /** Every selected package is counted once. */
  lemma {:induction false} CountsAddUp(entries: seq<PackageEntry>, all: seq<string>, choice: Choice,
                                       now: seq<PackageEntry>, includeApks: bool, dataAttempted: bool)
    requires |now| == |entries| && forall i | 0 <= i < |now| :: now[i].name == entries[i].name
    requires forall i | 0 <= i < |entries| :: entries[i].name in all <==> Picked(entries[i], choice)
    ensures CountOf(now, all, includeApks, dataAttempted, Restored) + CountOf(now, all, includeApks, dataAttempted,
        Failed) +
            CountOf(now, all, includeApks, dataAttempted, Skipped) == |Picks(entries, choice)|
  {
    if entries != [] {
      var last := |entries| - 1;
      assert forall i | 0 <= i < last :: entries[..last][i] == entries[i];
      CountsAddUp(entries[..last], all, choice, now[..last], includeApks, dataAttempted);
    }
  }

  /** The data the manifest holds for a package was written back: each of its own archives was unpacked, or
      the shared archive was restored and holds the package. */
  ghost predicate DataBack(e: PackageEntry, legacy: string, files: Files, unpacked: set<(Root, string, Blob)>,
                           legacyRestored: set<Blob>) {
    match e.dataCaptureMethod
    case RootTar =>
      && (e.dataArchive != "" || e.deDataArchive != "")
      && (e.dataArchive != "" ==> e.dataArchive in files &&
                                  (CredentialEncrypted, e.name, files[e.dataArchive]) in unpacked)
      && (e.deDataArchive != "" ==> e.deDataArchive in files &&
                                    (DeviceProtected, e.name, files[e.deDataArchive]) in unpacked)
    case RunAsTar => e.dataArchive in files && (CredentialEncrypted, e.name, files[e.dataArchive]) in unpacked
    case LegacyAdbBackup => legacy in files && files[legacy] in legacyRestored && e.name in HeldBy(files[legacy])
    case NotCaptured => false
  }

  /** If an entry counts on the shared archive, that holds its package. */
  predicate HeldIfShared(e: PackageEntry, legacy: string, files: Files) {
    e.dataCaptureMethod == LegacyAdbBackup ==> legacy in files && e.name in HeldBy(files[legacy])
  }

  /** Between the backup and the restore the archives have changed at most in ways their digests tell. */
  ghost predicate AllGuarded(manifest: Manifest, files: Files, later: Files, m: Measure) {
    forall i | 0 <= i < |manifest.packages| :: Guarded(manifest.packages[i], files, later, m)
  }

  /** Everything an entry needs for its data to come back. */
  predicate DataServable(s: Start, manifest: Manifest, e: PackageEntry) {
    if manifest.mode == "root" then
      RootBackend.Wanted(e, s.filter) ==> RootBackend.Restorable(e, s.files, s.dirs.Keys, s.answers, s.m)
    else StandardBackend.Servable(s, manifest.packages, manifest.legacyAdbBackupFile, e)
  }

  /** The packages an `adb restore` of the shared archive brings back, if one is due. */
  function BroughtBack(s: Start, manifest: Manifest): set<string> {
    var legacy := manifest.legacyAdbBackupFile;
    if manifest.mode == "root" then {}
    else StandardBackend.Overlaid(StandardBackend.LegacyDue(manifest.packages, legacy, s.filter), s.files, legacy)
  }

  /** The phone's directories of a package after the app data step. What an `adb restore` of the shared archive makes
      of the packages in it is its own affair. */
  predicate DataPlaced(s: Start, manifest: Manifest, e: PackageEntry, cancelled: bool, now: Directories) {
    if manifest.mode == "root" then
      || RootBackend.Placed(s, e, now)
      || (cancelled && SameAt(now, s.dirs, CredentialEncrypted, e.name) && SameAt(now, s.dirs, DeviceProtected, e.name))
    else
      e.name !in BroughtBack(s, manifest) ==>
        && SameAt(now, s.dirs, DeviceProtected, e.name)
        && (|| SameAt(now, StandardBackend.TurnOf(s, e), CredentialEncrypted, e.name)
            || (cancelled && SameAt(now, s.dirs, CredentialEncrypted, e.name)))
  }

  /** Packages the manifest does not list are left alone, unless the shared archive holds them and is restored. */
  ghost predicate OthersAlone(s: Start, manifest: Manifest, now: Directories) {
    forall root, name | name !in Names(manifest.packages) && name !in BroughtBack(s, manifest) ::
      SameAt(now, s.dirs, root, name)
  }

  /** What the app data step does for an entry. */
  ghost predicate DataServed(s: Start, manifest: Manifest, e: PackageEntry, r: PackageEntry, cancelled: bool,
                             now: Directories, unpacked: set<(Root, string, Blob)>, legacyRestored: set<Blob>) {
    && r == e.(error := r.error) && (e.name !in s.filter ==> r == e)
    && (!cancelled ==>
          && (r.error == "" <==> e.error == "" && DataServable(s, manifest, e))
          && (r.error == "" && e.name in s.filter && e.dataIncluded ==>
                (DataBack(e, manifest.legacyAdbBackupFile, s.files, unpacked, legacyRestored) <==>
                 HeldIfShared(e, manifest.legacyAdbBackupFile, s.files))))
    && DataPlaced(s, manifest, e, cancelled, now)
  }

  lemma ServedByRoot(s: Start, manifest: Manifest, e: PackageEntry, r: PackageEntry, cancelled: bool,
                     turn: bool, now: Directories, unpacked: set<(Root, string, Blob)>, legacyRestored: set<Blob>,
                     files: Files, dirs: Directories)
    requires manifest.mode == "root" && s.filter != [] && RootBackend.Truthful(e, files, dirs, s.m)
    requires if turn then RootBackend.TurnDone(s, e, r, now, unpacked)
             else cancelled && r == e && SameAt(now, s.dirs, CredentialEncrypted, e.name) &&
                  SameAt(now, s.dirs, DeviceProtected, e.name)
    ensures DataServed(s, manifest, e, r, cancelled, now, unpacked, legacyRestored)
  {
    hide IsValidPackageName, CePath, DePath, RootBackend.Restorable, Captured, RootBackend.Placed;
    if turn && r.error == "" && RootBackend.Wanted(e, s.filter) {
      assert RootBackend.ArchiveOf(e, CredentialEncrypted) == e.dataArchive;
      assert RootBackend.ArchiveOf(e, DeviceProtected) == e.deDataArchive;
    }
  }

  /** The app data step of a restore, as root. */
  method RestoreAsRoot(phone: Phone, disk: Disk, control: Control, entries: seq<PackageEntry>, manifest: Manifest,
                       selected: seq<string>, ghost was: Files, ghost dirs: Directories, m: Measure)
    returns (r: seq<PackageEntry>)
    requires manifest.mode == "root" && selected != [] && Distinct(Names(entries))
    requires Names(entries) == Names(manifest.packages)
    requires forall i | 0 <= i < |entries| ::
               RootBackend.Truthful(entries[i], was, dirs, m) && Guarded(entries[i], was, disk.files, m)
    modifies phone`dirs, phone`unpacked, control
    ensures |r| == |entries|
    ensures var s := Start(selected, disk.files, old(phone.dirs), phone.answers, m);
            forall i | 0 <= i < |r| ::
              DataServed(s, manifest, entries[i], r[i], control.cancelled, phone.dirs, phone.unpacked,
                         phone.legacyRestored)
    ensures OthersAlone(Start(selected, disk.files, old(phone.dirs), phone.answers, m), manifest, phone.dirs)
    ensures control.Later()
  {
    hide IsValidPackageName, RootBackend.Truthful, Guarded, Distinct, Names, DataServed, SameAt, RootBackend.TurnDone,
         RootBackend.OwnArchives;
    forall i | 0 <= i < |entries| ensures RootBackend.OwnArchives(entries[i], disk.files, m) {
      RootBackend.BackupsAreOwn(entries[i], was, dirs, disk.files, m);
    }
    ghost var s := Start(selected, disk.files, phone.dirs, phone.answers, m);
    ghost var done;
    r, done := RootBackend.RestoreAppData(phone, disk, control, entries, selected, m);
    forall i | 0 <= i < |r|
      ensures DataServed(s, manifest, entries[i], r[i], control.cancelled, phone.dirs, phone.unpacked,
                         phone.legacyRestored)
    {
      ServedByRoot(s, manifest, entries[i], r[i], control.cancelled, i < done, phone.dirs, phone.unpacked,
                   phone.legacyRestored, was, dirs);
    }
  }

  lemma ServedByApp(s: Start, manifest: Manifest, e: PackageEntry, r: PackageEntry, cancelled: bool, turn: bool,
                    now: Directories, unpacked: set<(Root, string, Blob)>, legacyRestored: set<Blob>,
                    files: Files, dirs: Directories)
    requires manifest.mode == "standard" && s.filter != []
    requires var legacy := manifest.legacyAdbBackupFile;
             && StandardBackend.Truthful(e, legacy, files, dirs, s.m)
             && OnlyError(e, r) && (!cancelled ==> turn)
             && (!(StandardBackend.OwnArchive(e, s.filter) || StandardBackend.Sharing(e, s.filter)) ==> r == e)
             && (!cancelled ==>
                   (r.error == "" <==> e.error == "" && StandardBackend.Servable(s, manifest.packages, legacy, e)))
             && (e.name !in BroughtBack(s, manifest) ==>
                   && SameAt(now, s.dirs, DeviceProtected, e.name)
                   && SameAt(now, if turn then StandardBackend.TurnOf(s, e) else s.dirs, CredentialEncrypted, e.name))
             && (turn && StandardBackend.OwnArchive(e, s.filter) && r.error == "" ==>
                   e.dataArchive in s.files && (CredentialEncrypted, e.name, s.files[e.dataArchive]) in unpacked)
             && (e.dataIncluded && StandardBackend.Sharing(e, s.filter) ==>
                   StandardBackend.AnySharing(manifest.packages, s.filter))
             && (!cancelled && StandardBackend.LegacyDue(manifest.packages, legacy, s.filter) && legacy in s.files &&
                 s.answers.restores ==>
                   s.files[legacy] in legacyRestored)
    ensures DataServed(s, manifest, e, r, cancelled, now, unpacked, legacyRestored)
  {
    hide IsValidPackageName, CePath, DePath, StandardBackend.Restorable, Captured, StandardBackend.TurnOf,
         StandardBackend.AnySharing, SameAt;
    ArchivesInData(e.name);
  }

  /** The entries asked about do not change by what errors they carry. */
  lemma SameSharing(entries: seq<PackageEntry>, packages: seq<PackageEntry>, filter: seq<string>)
    requires |entries| == |packages|
    requires forall i | 0 <= i < |entries| :: entries[i] == packages[i].(error := entries[i].error)
    ensures StandardBackend.AnySharing(entries, filter) <==> StandardBackend.AnySharing(packages, filter)
    ensures forall i | 0 <= i < |entries| && entries[i].dataIncluded && StandardBackend.Sharing(entries[i], filter) ::
              StandardBackend.AnySharing(packages, filter)
  {
    forall i | 0 <= i < |entries|
      ensures StandardBackend.Sharing(entries[i], filter) <==> StandardBackend.Sharing(packages[i], filter)
    {
    }
  }

  /** The app data step of a restore, without root. */
  method RestoreAsApp(phone: Phone, disk: Disk, control: Control, entries: seq<PackageEntry>, manifest: Manifest,
                      selected: seq<string>, ghost was: Files, ghost dirs: Directories, m: Measure)
    returns (r: seq<PackageEntry>)
    requires manifest.mode == "standard" && selected != [] && Distinct(Names(entries))
    requires Names(entries) == Names(manifest.packages) && |entries| == |manifest.packages|
    requires forall i | 0 <= i < |entries| :: entries[i] == manifest.packages[i].(error := entries[i].error)
    requires forall i | 0 <= i < |entries| ::
               StandardBackend.Truthful(entries[i], manifest.legacyAdbBackupFile, was, dirs, m)
    modifies phone`dirs, phone`unpacked, phone`legacyRestored, control
    ensures |r| == |entries|
    ensures var s := Start(selected, disk.files, old(phone.dirs), phone.answers, m);
            forall i | 0 <= i < |r| ::
              DataServed(s, manifest, entries[i], r[i], control.cancelled, phone.dirs, phone.unpacked,
                         phone.legacyRestored)
    ensures OthersAlone(Start(selected, disk.files, old(phone.dirs), phone.answers, m), manifest, phone.dirs)
    ensures control.Later()
  {
    hide IsValidPackageName, StandardBackend.Truthful, Distinct, Names, DataServed, SameAt, StandardBackend.TurnOf,
         StandardBackend.AnySharing, StandardBackend.Restorable, StandardBackend.OwnArchive, StandardBackend.Sharing;
    ghost var s := Start(selected, disk.files, phone.dirs, phone.answers, m);
    ghost var ran, done;
    SameSharing(entries, manifest.packages, selected);
    r, ran, done := StandardBackend.RestoreAppData(phone, disk, control, entries, manifest.legacyAdbBackupFile,
                                                   selected, m);
    assert StandardBackend.Overlaid(ran, disk.files, manifest.legacyAdbBackupFile) <= BroughtBack(s, manifest);
    forall i | 0 <= i < |r|
      ensures DataServed(s, manifest, entries[i], r[i], control.cancelled, phone.dirs, phone.unpacked,
                         phone.legacyRestored)
    {
      ServedByApp(s, manifest, entries[i], r[i], control.cancelled, i < done, phone.dirs, phone.unpacked,
                  phone.legacyRestored, was, dirs);
    }
  }

  /** The app data step of a restore, by whichever backend made the backup. */
  method RestoreData(phone: Phone, disk: Disk, control: Control, entries: seq<PackageEntry>, manifest: Manifest,
                     selected: seq<string>, ghost was: Files, ghost dirs: Directories, m: Measure)
    returns (r: seq<PackageEntry>)
    requires Written(manifest, was, dirs, m) && AllGuarded(manifest, was, disk.files, m)
    requires |entries| == |manifest.packages| && selected != []
    requires forall i | 0 <= i < |entries| :: entries[i] == manifest.packages[i].(error := entries[i].error)
    modifies phone`dirs, phone`unpacked, phone`legacyRestored, control
    ensures |r| == |entries|
    ensures var s := Start(selected, disk.files, old(phone.dirs), phone.answers, m);
            forall i | 0 <= i < |r| ::
              DataServed(s, manifest, entries[i], r[i], control.cancelled, phone.dirs, phone.unpacked,
                         phone.legacyRestored)
    ensures OthersAlone(Start(selected, disk.files, old(phone.dirs), phone.answers, m), manifest, phone.dirs)
    ensures control.Later()
  {
    hide IsValidPackageName, RootBackend.Truthful, StandardBackend.Truthful, Guarded, Distinct, DataServed;
    assert Names(entries) == Names(manifest.packages);
    forall i | 0 <= i < |entries|
      ensures Honest(entries[i], manifest.mode == "root", manifest.legacyAdbBackupFile, was, dirs, m)
      ensures Guarded(entries[i], was, disk.files, m)
    {
      StillHonest(manifest.packages[i], entries[i], manifest.mode == "root", manifest.legacyAdbBackupFile, was, dirs,
                  m);
      StillGuarded(manifest.packages[i], entries[i], was, disk.files, m);
    }
    if manifest.mode == "root" {
      r := RestoreAsRoot(phone, disk, control, entries, manifest, selected, was, dirs, m);
    } else {
      r := RestoreAsApp(phone, disk, control, entries, manifest, selected, was, dirs, m);
    }
  }

  lemma StillGuarded(a: PackageEntry, b: PackageEntry, files: Files, later: Files, m: Measure)
    requires Guarded(a, files, later, m) && b == a.(error := b.error)
    ensures Guarded(b, files, later, m)
  {
  }

  /** The calls that succeeded, as the phone records them. */
  datatype Records = Records(installed: set<seq<string>>, unpacked: set<(Root, string, Blob)>,
                             legacyRestored: set<Blob>)

  /** Everything a selected package needs to come back without an error. */
  predicate Serviceable(s: Start, manifest: Manifest, includeApks: bool, attempted: bool, e: PackageEntry) {
    && (includeApks && InstallDue(e, s.filter) ==> s.answers.installs(e.name))
    && (attempted ==> DataServable(s, manifest, e))
  }

  /** What a restore owes a package, `e` in the manifest and `r` at the end. */
  ghost predicate Served(s: Start, manifest: Manifest, includeApks: bool, attempted: bool, e: PackageEntry,
                         r: PackageEntry, cancelled: bool, now: Directories, records: Records) {
    && r == e.(error := r.error) && (e.name !in s.filter ==> r == e)
    && (!cancelled && e.name in s.filter ==>
          (r.error == "" <==> Serviceable(s, manifest, includeApks, attempted, e)))
    && (!cancelled && e.name in s.filter && r.error == "" ==>
          && (includeApks && e.apkIncluded && e.apkFiles != [] ==> e.apkFiles in records.installed)
          && (attempted && e.dataIncluded ==>
                (DataBack(e, manifest.legacyAdbBackupFile, s.files, records.unpacked, records.legacyRestored) <==>
                 HeldIfShared(e, manifest.legacyAdbBackupFile, s.files))))
    && (attempted ==> DataPlaced(s, manifest, e, cancelled, now))
    && (!attempted ==> SameAt(now, s.dirs, CredentialEncrypted, e.name) && SameAt(now, s.dirs, DeviceProtected, e.name))
  }

  /** What is said about an entry's data does not depend on the error it carries. */
  lemma ErrorAside(s: Start, manifest: Manifest, a: PackageEntry, b: PackageEntry, cancelled: bool, now: Directories,
                   unpacked: set<(Root, string, Blob)>, legacyRestored: set<Blob>)
    requires b == a.(error := b.error)
    ensures DataServable(s, manifest, a) <==> DataServable(s, manifest, b)
    ensures DataPlaced(s, manifest, a, cancelled, now) <==> DataPlaced(s, manifest, b, cancelled, now)
    ensures DataBack(a, manifest.legacyAdbBackupFile, s.files, unpacked, legacyRestored) <==>
            DataBack(b, manifest.legacyAdbBackupFile, s.files, unpacked, legacyRestored)
    ensures HeldIfShared(a, manifest.legacyAdbBackupFile, s.files) <==>
            HeldIfShared(b, manifest.legacyAdbBackupFile, s.files)
  {
    hide IsValidPackageName, RootBackend.TreeAfter, RootBackend.Fate, SameAt, ChecksumMatches, AfterUnpackAs,
         CanUnpackAs, StandardBackend.LegacyDue;
    assert forall root :: RootBackend.ArchiveOf(a, root) == RootBackend.ArchiveOf(b, root);
  }

  lemma EntryServed(s: Start, manifest: Manifest, includeApks: bool, attempted: bool, e: PackageEntry,
                    picked: PackageEntry, before: PackageEntry, r: PackageEntry, cancelled: bool, ran: bool,
                    now: Directories, records: Records)
    requires picked == if e.name in s.filter then e.(error := "") else e
    requires OnlyError(picked, before) && (!includeApks || !InstallDue(picked, s.filter) ==> before == picked)
    requires !cancelled && includeApks ==>
               && (before.error == "" <==>
                   picked.error == "" && (InstallDue(picked, s.filter) ==> s.answers.installs(picked.name)))
               && (InstallDue(picked, s.filter) && before.error == "" ==> picked.apkFiles in records.installed)
    requires if ran
             then DataServed(s, manifest, before, r, cancelled, now, records.unpacked, records.legacyRestored)
             else r == before && now == s.dirs
    requires attempted && !cancelled ==> ran
    requires ran ==> attempted
    ensures Served(s, manifest, includeApks, attempted, e, r, cancelled, now, records)
  {
    hide IsValidPackageName, DataServable, DataPlaced, DataBack, HeldIfShared;
    ErrorAside(s, manifest, e, before, cancelled, now, records.unpacked, records.legacyRestored);
    if !ran && attempted { NotRun(s, manifest, e); }
  }

  lemma NotRun(s: Start, manifest: Manifest, e: PackageEntry)
    ensures DataPlaced(s, manifest, e, true, s.dirs)
  {
  }

  lemma NobodyTouched(s: Start, manifest: Manifest)
    ensures OthersAlone(s, manifest, s.dirs)
  {
    SameAsItself(s.dirs);
  }

  /** The phone when the app data step begins: with the apps installed that were to be installed. */
  ghost predicate Readied(was: Directories, ready: Directories, packages: seq<PackageEntry>, includeApks: bool,
                          selected: seq<string>, answers: Answers, cancelled: bool) {
    if includeApks then AllReady(was, ready, packages, selected, answers, cancelled) else ready == was
  }

  /** Which apps are installed does not depend on the errors the entries carry. */
  lemma ReadyAside(was: Directories, ready: Directories, entries: seq<PackageEntry>, packages: seq<PackageEntry>,
                   selected: seq<string>, answers: Answers, early: bool, cancelled: bool)
    requires |entries| == |packages|
    requires forall i | 0 <= i < |entries| :: entries[i] == packages[i].(error := entries[i].error)
    requires AllReady(was, ready, entries, selected, answers, early) && (early ==> cancelled)
    ensures AllReady(was, ready, packages, selected, answers, cancelled)
  {
    hide AfterInstall;
    assert Names(entries) == Names(packages);
    forall i | 0 <= i < |packages|
      ensures Ready(was, ready, packages[i], selected, answers) || (cancelled && AsItWas(was, ready, packages[i].name))
    {
      assert Ready(was, ready, entries[i], selected, answers) || (early && AsItWas(was, ready, entries[i].name));
      assert ReadyFor(was, entries[i], selected, answers) == ReadyFor(was, packages[i], selected, answers);
    }
  }

  /** The steps that change the phone: installing apps, then app data. */
  method RestorePackages(phone: Phone, disk: Disk, control: Control, entries: seq<PackageEntry>, manifest: Manifest,
                         includeApks: bool, selected: seq<string>, attempted: bool, ghost was: Files,
                         ghost dirs: Directories, m: Measure)
    returns (r: seq<PackageEntry>, ghost ready: Directories)
    requires Written(manifest, was, dirs, m) && AllGuarded(manifest, was, disk.files, m)
    requires |entries| == |manifest.packages| && selected != []
    requires forall i | 0 <= i < |entries| ::
               var e := manifest.packages[i]; entries[i] == if e.name in selected then e.(error := "") else e
    modifies phone, control
    ensures |r| == |entries|
    ensures Readied(old(phone.dirs), ready, manifest.packages, includeApks, selected, phone.answers, control.cancelled)
    ensures var s := Start(selected, disk.files, ready, phone.answers, m);
            && OthersAlone(s, manifest, phone.dirs)
            && forall i | 0 <= i < |r| ::
                 Served(s, manifest, includeApks, attempted, manifest.packages[i], r[i], control.cancelled, phone.dirs,
                        Records(phone.installed, phone.unpacked, phone.legacyRestored))
    ensures !attempted ==> phone.dirs == ready
    ensures control.Later()
  {
    hide IsValidPackageName, Served, Written, AllGuarded, DataServed, SameAt, OthersAlone, AllReady, Distinct;
    r := entries;
    DistinctNames(manifest, entries, was, dirs, m);
    ghost var start := phone.dirs;
    if includeApks { r := InstallApks(phone, control, r, selected); }
    ready := phone.dirs;
    ghost var s := Start(selected, disk.files, ready, phone.answers, m);
    NobodyTouched(s, manifest);
    ghost var early := control.cancelled;
    var cancelled := control.Requested();
    ghost var before := r;
    ghost var ran := attempted && !cancelled;
    if attempted && !cancelled {
      r := RestoreData(phone, disk, control, r, manifest, selected, was, dirs, m);
    }
    if includeApks {
      ReadyAside(start, ready, entries, manifest.packages, selected, phone.answers, early, control.cancelled);
    }
    forall i | 0 <= i < |r|
      ensures Served(s, manifest, includeApks, attempted, manifest.packages[i], r[i], control.cancelled, phone.dirs,
                     Records(phone.installed, phone.unpacked, phone.legacyRestored))
    {
      EntryServed(s, manifest, includeApks, attempted, manifest.packages[i], entries[i], before[i], r[i],
                  control.cancelled, ran, phone.dirs,
                  Records(phone.installed, phone.unpacked, phone.legacyRestored));
    }
  }

  lemma DistinctNames(manifest: Manifest, entries: seq<PackageEntry>, was: Files, dirs: Directories, m: Measure)
    requires Written(manifest, was, dirs, m) && |entries| == |manifest.packages|
    requires forall i | 0 <= i < |entries| :: entries[i] == manifest.packages[i].(error := entries[i].error)
    ensures Distinct(Names(entries)) && Names(entries) == Names(manifest.packages)
  {
    hide Honest, Distinct;
    assert Names(entries) == Names(manifest.packages);
  }

  /** How a selected package counts, unless the restore is cancelled: as failed exactly if something it needs is not
      there, and otherwise as restored exactly if the backup has something for it that was asked for. Then its APKs
      were installed, and its data was written back exactly if the shared archive, should it count on that, holds
      it. */
  lemma OutcomeIff(s: Start, manifest: Manifest, includeApks: bool, attempted: bool, e: PackageEntry, r: PackageEntry,
                   now: Directories, records: Records)
    requires Served(s, manifest, includeApks, attempted, e, r, false, now, records) && e.name in s.filter
    ensures OutcomeOf(r, includeApks, attempted) == Failed <==>
            !Serviceable(s, manifest, includeApks, attempted, e)
    ensures OutcomeOf(r, includeApks, attempted) == Restored <==>
            && Serviceable(s, manifest, includeApks, attempted, e)
            && ((includeApks && e.apkIncluded && e.apkFiles != []) || (attempted && e.dataIncluded))
    ensures OutcomeOf(r, includeApks, attempted) == Restored ==>
              && (includeApks && e.apkIncluded && e.apkFiles != [] ==> e.apkFiles in records.installed)
              && (attempted && e.dataIncluded ==>
                    (DataBack(e, manifest.legacyAdbBackupFile, s.files, records.unpacked, records.legacyRestored) <==>
                     HeldIfShared(e, manifest.legacyAdbBackupFile, s.files)))
  {
    hide Serviceable, DataPlaced, DataBack, HeldIfShared;
  }

  lemma PicksLiterally(entries: seq<PackageEntry>, choice: Choice)
    ensures forall e | e in entries ::
              e.name in Picks(entries, choice) <==>
              (choice.only == [] || e.name in choice.only) && e.name !in choice.exclude
    ensures forall i | 0 <= i < |entries| :: entries[i].name in Picks(entries, choice) <==> Picked(entries[i], choice)
  {
    PicksExactly(entries, choice);
  }

  lemma AsItWasItself(dirs: Directories)
    ensures forall name :: AsItWas(dirs, dirs, name)
  {
  }

  /** A package that was not selected has its app and its data left alone, unless its data comes along with the shared
      archive. */
  lemma LeftAlone(s: Start, was: Directories, manifest: Manifest, includeApks: bool, attempted: bool, i: nat,
                  r: PackageEntry, cancelled: bool, now: Directories, records: Records)
    requires i < |manifest.packages| && manifest.packages[i].name !in s.filter && s.filter != []
    requires Readied(was, s.dirs, manifest.packages, includeApks, s.filter, s.answers, cancelled)
    requires Served(s, manifest, includeApks, attempted, manifest.packages[i], r, cancelled, now, records)
    ensures r == manifest.packages[i]
    ensures manifest.packages[i].name !in BroughtBack(s, manifest) ==> AsItWas(was, now, manifest.packages[i].name)
  {
    hide DataServable, DataBack, BroughtBack, RootBackend.EntryAfter, StandardBackend.EntryAfter, AfterInstall;
    var e := manifest.packages[i];
    assert AsItWas(was, s.dirs, e.name) by {
      if includeApks {
        assert Ready(was, s.dirs, e, s.filter, s.answers) || AsItWas(was, s.dirs, e.name);
      }
    }
  }

  lemma ServedKeeps(s: Start, manifest: Manifest, includeApks: bool, attempted: bool, e: PackageEntry,
                    r: PackageEntry, cancelled: bool, now: Directories, records: Records)
    requires Served(s, manifest, includeApks, attempted, e, r, cancelled, now, records)
    ensures r == e.(error := r.error)
    ensures !cancelled && e.name in s.filter ==>
              (r.error == "" <==> Serviceable(s, manifest, includeApks, attempted, e))
  {
    hide Serviceable, DataPlaced, DataBack;
  }

  /** What a restore owes its entries, for all of them. */
  lemma EachKept(s: Start, was: Directories, manifest: Manifest, includeApks: bool, attempted: bool,
                 r: seq<PackageEntry>, cancelled: bool, now: Directories, records: Records)
    requires |r| == |manifest.packages| && s.filter != []
    requires Readied(was, s.dirs, manifest.packages, includeApks, s.filter, s.answers, cancelled)
    requires forall i | 0 <= i < |r| ::
               Served(s, manifest, includeApks, attempted, manifest.packages[i], r[i], cancelled, now, records)
    ensures forall i | 0 <= i < |r| :: r[i] == manifest.packages[i].(error := r[i].error)
    ensures forall i | 0 <= i < |r| && manifest.packages[i].name !in s.filter ::
              && r[i] == manifest.packages[i]
              && (manifest.packages[i].name !in BroughtBack(s, manifest) ==>
                    AsItWas(was, now, manifest.packages[i].name))
    ensures !cancelled ==> forall i | 0 <= i < |r| && manifest.packages[i].name in s.filter ::
              r[i].error == "" <==> Serviceable(s, manifest, includeApks, attempted, manifest.packages[i])
  {
    hide Served, Readied, BroughtBack, AsItWas, Serviceable;
    forall i | 0 <= i < |r|
      ensures r[i] == manifest.packages[i].(error := r[i].error)
      ensures !cancelled && manifest.packages[i].name in s.filter ==>
                (r[i].error == "" <==> Serviceable(s, manifest, includeApks, attempted, manifest.packages[i]))
    {
      ServedKeeps(s, manifest, includeApks, attempted, manifest.packages[i], r[i], cancelled, now, records);
    }
    forall i | 0 <= i < |r| && manifest.packages[i].name !in s.filter
      ensures r[i] == manifest.packages[i]
      ensures manifest.packages[i].name !in BroughtBack(s, manifest) ==> AsItWas(was, now, manifest.packages[i].name)
    {
      LeftAlone(s, was, manifest, includeApks, attempted, i, r[i], cancelled, now, records);
    }
  }

  /** A restore. The counts cover every selected package once, and every package gets what it is owed: unless the
      user cancels, a selected one ends without an error exactly if everything it needs is there once the apps are
      installed. */
  method RunRestore(phone: Phone, disk: Disk, control: Control, manifest: Manifest, choice: Choice, rooted: bool,
                    ghost was: Files, ghost dirs: Directories, m: Measure)
    returns (summary: Summary, selected: seq<string>, r: seq<PackageEntry>, ghost ready: Directories)
    requires Written(manifest, was, dirs, m) && AllGuarded(manifest, was, disk.files, m)
    modifies phone, control
    ensures |r| == |manifest.packages| && selected == Picks(manifest.packages, choice)
    ensures forall e | e in manifest.packages ::
              e.name in selected <==> (choice.only == [] || e.name in choice.only) && e.name !in choice.exclude
    ensures forall i | 0 <= i < |r| && manifest.packages[i].name !in selected ::
              && r[i] == manifest.packages[i]
              && (manifest.packages[i].name !in BroughtBack(Start(selected, disk.files, ready, phone.answers, m),
                                                            manifest) ==>
                    AsItWas(old(phone.dirs), phone.dirs, manifest.packages[i].name))
    ensures !control.cancelled ==> forall i | 0 <= i < |r| && manifest.packages[i].name in selected ::
              r[i].error == "" <==>
              Serviceable(Start(selected, disk.files, ready, phone.answers, m), manifest, choice.includeApks,
                          choice.includeAppData && !(manifest.mode == "root" && !rooted), manifest.packages[i])
    ensures summary.restored + summary.failed + summary.skipped == |selected|
    ensures forall i | 0 <= i < |r| :: r[i] == manifest.packages[i].(error := r[i].error)
    ensures selected == [] ==> phone.dirs == ready == old(phone.dirs)
    ensures selected != [] ==>
              Readied(old(phone.dirs), ready, manifest.packages, choice.includeApks, selected, phone.answers,
                      control.cancelled)
    ensures var attempted := choice.includeAppData && !(manifest.mode == "root" && !rooted);
            var s := Start(selected, disk.files, ready, phone.answers, m);
            && (!attempted ==> phone.dirs == ready)
            && OthersAlone(s, manifest, phone.dirs)
            && summary.restored == CountOf(r, selected, choice.includeApks, attempted, Restored)
            && summary.failed == CountOf(r, selected, choice.includeApks, attempted, Failed)
            && summary.skipped == CountOf(r, selected, choice.includeApks, attempted, Skipped)
            && (selected != [] ==>
                  forall i | 0 <= i < |r| ::
                    Served(s, manifest, choice.includeApks, attempted, manifest.packages[i], r[i], control.cancelled,
                           phone.dirs, Records(phone.installed, phone.unpacked, phone.legacyRestored)))
    ensures control.Later()
  {
    hide IsValidPackageName, Distinct, Names, CountOf, Picks, Served, OutcomeOf, Written, AllGuarded, OthersAlone,
         Readied, BroughtBack, Serviceable, AsItWas, Picked;
    r, selected := Select(manifest.packages, choice);
    ready := phone.dirs;
    PicksLiterally(manifest.packages, choice);
    AsItWasItself(phone.dirs);
    NobodyTouched(Start(selected, disk.files, ready, phone.answers, m), manifest);
    var attempted := choice.includeAppData && !(manifest.mode == "root" && !rooted);
    if selected == [] {
      NoneSelected(r, choice.includeApks, attempted);
      return Summary(0, 0, 0), selected, r, ready;
    }
    r, ready := RestorePackages(phone, disk, control, r, manifest, choice.includeApks, selected, attempted, was, dirs,
                                m);
    summary := Count(r, selected, choice.includeApks, attempted);
    EachKept(Start(selected, disk.files, ready, phone.answers, m), old(phone.dirs), manifest, choice.includeApks,
             attempted, r, control.cancelled, phone.dirs,
             Records(phone.installed, phone.unpacked, phone.legacyRestored));
    CountsAddUp(manifest.packages, selected, choice, r, choice.includeApks, attempted);
  }
}
