/** From one phone to another without root: a backup, its manifest written and read again, and its restore, composed. */
module UnrootedMove {
  import opened Wrappers
  import opened AndroidDevice
  import opened PackageNames
  import opened Manifest
  import opened PackageEntries
  import opened ApkFiles
  import opened BackupManager
  import opened PhoneMove
  import ManifestIo
  import RootBackend
  import StandardBackend

  /** How a package's data is captured without root. */
  datatype Way = ByRunAs | InSharedArchive | NotAtAll

  function WayOf(dirs: Directories, answers: Answers, name: string): Way {
    if StandardBackend.Reachable(dirs, answers, name) then ByRunAs
    else if answers.backsUp then InSharedArchive
    else NotAtAll
  }

  /** A selected package ends without an error. */
  predicate Goes(package: Package, from: Directories, fromAnswers: Answers, had: Directories, answers: Answers,
                 includeApks: bool, m: Measure) {
    && (includeApks && SomePulled(package, fromAnswers) ==> answers.installs(package.name))
    && match WayOf(from, fromAnswers, package.name)
       case ByRunAs =>
         && (CredentialEncrypted, package.name) in had && answers.unpacksAs(package.name).Through?
         && (m.hashes(CePath(package.name)) ==> m.rereads(CePath(package.name)))
       case InSharedArchive => answers.restores
       case NotAtAll => true
  }

  /** What such a package has on the other phone. */
  predicate Arrived(name: string, way: Way, allowed: bool, had: Directories, from: Directories, now: Directories) {
    match way
    case ByRunAs => StandardBackend.HeldByApp(now, had, from, name) && SameAt(now, had, DeviceProtected, name)
    case InSharedArchive => !allowed ==> AsItWas(had, now, name)
    case NotAtAll => AsItWas(had, now, name)
  }

  /** What a written manifest says of the ways its packages took. */
  lemma WayTold(e: PackageEntry, package: Package, from: Directories, fromAnswers: Answers, legacy: string,
                files: Files, m: Measure)
    requires Accounted(e, package, false, Options(true, true), from, fromAnswers)
    requires StandardBackend.Truthful(e, legacy, files, from, m)
    ensures e.name == package.name
    ensures e.apkFiles == PulledPaths(package.name, package.apkPaths, fromAnswers)
    ensures e.dataIncluded <==> !WayOf(from, fromAnswers, e.name).NotAtAll?
    ensures e.dataCaptureMethod == RunAsTar <==> WayOf(from, fromAnswers, e.name).ByRunAs?
    ensures e.dataCaptureMethod == LegacyAdbBackup <==> WayOf(from, fromAnswers, e.name).InSharedArchive?
    ensures e.dataCaptureMethod == LegacyAdbBackup ==> legacy == LEGACY && LEGACY in files
  {
    hide IsValidPackageName, CePath, Captured, PulledPaths, AllPulled, NoData, CaptureFails, StandardBackend.Reachable;
  }

  /** The shared archive holds packages that no other way was found for and that allow it. */
  ghost predicate SharedRightly(legacy: string, files: Files, from: Directories, fromAnswers: Answers) {
    legacy != "" ==>
      && legacy == LEGACY && LEGACY in files && fromAnswers.backsUp
      && forall name | name in HeldBy(files[LEGACY]) ::
           !StandardBackend.Reachable(from, fromAnswers, name) && fromAnswers.allows(name)
  }

  lemma BroughtIsAllowed(s: Start, manifest: Manifest, from: Directories, fromAnswers: Answers, name: string)
    requires SharedRightly(manifest.legacyAdbBackupFile, s.files, from, fromAnswers)
    requires name in BroughtBack(s, manifest)
    ensures WayOf(from, fromAnswers, name) == InSharedArchive && fromAnswers.allows(name)
  {
    hide StandardBackend.Reachable;
  }

  /** What the data of an entry needs, the archives being as they were written. */
  lemma DataNeeds(s: Start, manifest: Manifest, e: PackageEntry, way: Way, from: Directories)
    requires manifest.mode == "standard" && Measures(s.m) && e in manifest.packages && e.name in s.filter
    requires StandardBackend.Truthful(e, manifest.legacyAdbBackupFile, s.files, from, s.m)
    requires e.dataCaptureMethod == RunAsTar <==> way.ByRunAs?
    requires e.dataCaptureMethod == LegacyAdbBackup <==> way.InSharedArchive?
    ensures DataServable(s, manifest, e) <==>
            match way
            case ByRunAs =>
              && (CredentialEncrypted, e.name) in s.dirs && s.answers.unpacksAs(e.name).Through?
              && (s.m.hashes(CePath(e.name)) ==> s.m.rereads(CePath(e.name)))
            case InSharedArchive => s.answers.restores
            case NotAtAll => true
  {
    hide IsValidPackageName, CePath;
    if way.ByRunAs? {
      SameGuarded(e, s.files, s.m);
      StandardBackend.AppNeeds(s, e, manifest.legacyAdbBackupFile, s.files, from);
    } else if way.InSharedArchive? {
      var i :| 0 <= i < |manifest.packages| && manifest.packages[i] == e;
      assert manifest.packages[i].dataIncluded && StandardBackend.Sharing(manifest.packages[i], s.filter);
    }
  }

  lemma EntryGoes(s: Start, manifest: Manifest, includeApks: bool, e: PackageEntry, r: PackageEntry, package: Package,
                  from: Directories, fromAnswers: Answers, now: Directories, records: Records)
    requires manifest.mode == "standard" && Measures(s.m) && e in manifest.packages && e.name in s.filter
    requires Accounted(e, package, false, Options(true, true), from, fromAnswers)
    requires e.apkIncluded <==> e.apkFiles != []
    requires StandardBackend.Truthful(e, manifest.legacyAdbBackupFile, s.files, from, s.m)
    requires Served(s, manifest, includeApks, true, e, r, false, now, records)
    ensures r.error == "" <==> Goes(package, from, fromAnswers, s.dirs, s.answers, includeApks, s.m)
  {
    hide IsValidPackageName, CePath, StandardBackend.Truthful, PulledPaths, DataServable, DataPlaced, DataBack,
         Accounted, WayOf;
    WayTold(e, package, from, fromAnswers, manifest.legacyAdbBackupFile, s.files, s.m);
    ListedIff(package.name, package.apkPaths, fromAnswers);
    DataNeeds(s, manifest, e, WayOf(from, fromAnswers, e.name), from);
  }

  lemma EntryArrives(s: Start, manifest: Manifest, includeApks: bool, e: PackageEntry, r: PackageEntry,
                     package: Package, from: Directories, fromAnswers: Answers, now: Directories, records: Records)
    requires manifest.mode == "standard" && Measures(s.m) && e in manifest.packages && e.name in s.filter
    requires Accounted(e, package, false, Options(true, true), from, fromAnswers)
    requires StandardBackend.Truthful(e, manifest.legacyAdbBackupFile, s.files, from, s.m)
    requires SharedRightly(manifest.legacyAdbBackupFile, s.files, from, fromAnswers)
    requires Served(s, manifest, includeApks, true, e, r, false, now, records) && r.error == ""
    ensures Arrived(e.name, WayOf(from, fromAnswers, e.name), fromAnswers.allows(e.name), s.dirs, from, now)
  {
    hide IsValidPackageName, CePath, StandardBackend.Truthful, BroughtBack, DataServable, DataBack, Accounted, WayOf,
         StandardBackend.HeldByApp, StandardBackend.TurnOf, Guarded, SharedRightly;
    WayTold(e, package, from, fromAnswers, manifest.legacyAdbBackupFile, s.files, s.m);
    var way := WayOf(from, fromAnswers, e.name);
    if e.name in BroughtBack(s, manifest) {
      BroughtIsAllowed(s, manifest, from, fromAnswers, e.name);
    } else if way.ByRunAs? {
      SameGuarded(e, s.files, s.m);
      ServedIsServable(s, manifest, includeApks, e, r, now, records);
      OwnNeeds(s, manifest, e, from);
      StandardBackend.AppHolds(s, e, manifest.legacyAdbBackupFile, s.files, from, now);
    } else {
      NoOwnArchive(s, e);
    }
  }

  lemma NoOwnArchive(s: Start, e: PackageEntry)
    requires e.dataCaptureMethod != RunAsTar
    ensures StandardBackend.TurnOf(s, e) == s.dirs
  {
  }

  lemma ServedIsServable(s: Start, manifest: Manifest, includeApks: bool, e: PackageEntry, r: PackageEntry,
                         now: Directories, records: Records)
    requires Served(s, manifest, includeApks, true, e, r, false, now, records) && r.error == "" && e.name in s.filter
    ensures DataServable(s, manifest, e)
  {
    hide DataServable, DataPlaced, DataBack;
  }

  lemma OwnNeeds(s: Start, manifest: Manifest, e: PackageEntry, from: Directories)
    requires manifest.mode == "standard" && DataServable(s, manifest, e) && e.name in s.filter
    requires StandardBackend.Truthful(e, manifest.legacyAdbBackupFile, s.files, from, s.m)
    requires e.dataCaptureMethod == RunAsTar && Guarded(e, s.files, s.files, s.m)
    ensures StandardBackend.Restorable(e, s.files, s.dirs.Keys, s.answers, s.m)
  {
    hide IsValidPackageName, CePath, StandardBackend.Restorable, StandardBackend.Truthful;
    StandardBackend.AppNeeds(s, e, manifest.legacyAdbBackupFile, s.files, from);
  }

  /** A package that went through the shared archive counts as restored; its data was written back exactly if its
      app allows that. */
  lemma SharedIsCounted(s: Start, manifest: Manifest, includeApks: bool, e: PackageEntry, r: PackageEntry,
                        package: Package, from: Directories, fromAnswers: Answers, now: Directories, records: Records)
    requires Accounted(e, package, false, Options(true, true), from, fromAnswers) && e.name in s.filter
    requires StandardBackend.Truthful(e, manifest.legacyAdbBackupFile, s.files, from, s.m)
    requires WayOf(from, fromAnswers, e.name).InSharedArchive?
    requires LEGACY in s.files && (e.name in HeldBy(s.files[LEGACY]) <==> fromAnswers.allows(e.name))
    requires Served(s, manifest, includeApks, true, e, r, false, now, records) && r.error == ""
    ensures OutcomeOf(r, includeApks, true) == Restored
    ensures DataBack(r, LEGACY, s.files, records.unpacked, records.legacyRestored) <==> fromAnswers.allows(e.name)
  {
    hide StandardBackend.Truthful, Accounted, WayOf, DataPlaced, Serviceable;
    WayTold(e, package, from, fromAnswers, manifest.legacyAdbBackupFile, s.files, s.m);
  }

  /** What a backup and a restore without root, neither of them cancelled, do for one package. */
  ghost predicate Gone(s: Start, includeApks: bool, package: Package, r: PackageEntry, picked: bool, from: Directories,
                       fromAnswers: Answers, now: Directories, records: Records) {
    var way := WayOf(from, fromAnswers, r.name);
    && r.name == package.name
    && (picked ==> (r.error == "" <==> Goes(package, from, fromAnswers, s.dirs, s.answers, includeApks, s.m)))
    && (picked && r.error == "" ==> Arrived(r.name, way, fromAnswers.allows(r.name), s.dirs, from, now))
    && (picked && r.error == "" && way.InSharedArchive? ==>
          && OutcomeOf(r, includeApks, true) == Restored
          && (DataBack(r, LEGACY, s.files, records.unpacked, records.legacyRestored) <==> fromAnswers.allows(r.name)))
    && (!picked && !(way.InSharedArchive? && fromAnswers.allows(r.name)) ==> AsItWas(s.dirs, now, r.name))
  }

  lemma EntryGone(s: Start, manifest: Manifest, includeApks: bool, e: PackageEntry, package: Package, r: PackageEntry,
                  from: Directories, fromAnswers: Answers, now: Directories, records: Records)
    requires manifest.mode == "standard" && Measures(s.m) && e in manifest.packages
    requires Accounted(e, package, false, Options(true, true), from, fromAnswers)
    requires e.apkIncluded <==> e.apkFiles != []
    requires StandardBackend.Truthful(e, manifest.legacyAdbBackupFile, s.files, from, s.m)
    requires SharedRightly(manifest.legacyAdbBackupFile, s.files, from, fromAnswers)
    requires e.dataCaptureMethod == LegacyAdbBackup && LEGACY in s.files ==>
               (e.name in HeldBy(s.files[LEGACY]) <==> fromAnswers.allows(e.name))
    requires r == e.(error := r.error)
    requires if s.filter == [] then now == s.dirs else Served(s, manifest, includeApks, true, e, r, false, now, records)
    ensures Gone(s, includeApks, package, r, e.name in s.filter, from, fromAnswers, now, records)
  {
    hide IsValidPackageName, CePath, StandardBackend.Truthful, WayOf, Goes, Arrived, Accounted, Served, DataBack,
         SharedRightly, OutcomeOf, BroughtBack;
    WayTold(e, package, from, fromAnswers, manifest.legacyAdbBackupFile, s.files, s.m);
    if e.name in s.filter {
      EntryGoes(s, manifest, includeApks, e, r, package, from, fromAnswers, now, records);
      if r.error == "" {
        EntryArrives(s, manifest, includeApks, e, r, package, from, fromAnswers, now, records);
        if WayOf(from, fromAnswers, e.name).InSharedArchive? {
          SharedIsCounted(s, manifest, includeApks, e, r, package, from, fromAnswers, now, records);
        }
      }
    } else if e.name in BroughtBack(s, manifest) {
      BroughtIsAllowed(s, manifest, from, fromAnswers, e.name);
    } else {
      NotPicked(s, manifest, includeApks, e, r, now, records);
    }
  }

  lemma NotPicked(s: Start, manifest: Manifest, includeApks: bool, e: PackageEntry, r: PackageEntry, now: Directories,
                  records: Records)
    requires manifest.mode == "standard" && e.name !in s.filter && e.name !in BroughtBack(s, manifest)
    requires if s.filter == [] then now == s.dirs else Served(s, manifest, includeApks, true, e, r, false, now, records)
    ensures AsItWas(s.dirs, now, e.name)
  {
    hide DataServable, DataBack, BroughtBack, StandardBackend.EntryAfter;
  }

  /** What is said of a package depends on its own directories only. */
  lemma GoneRebased(s: Start, had: Directories, includeApks: bool, package: Package, r: PackageEntry, picked: bool,
                    from: Directories, fromAnswers: Answers, now: Directories, records: Records)
    requires Gone(s, includeApks, package, r, picked, from, fromAnswers, now, records) && AsItWas(had, s.dirs, r.name)
    ensures Gone(s.(dirs := had), includeApks, package, r, picked, from, fromAnswers, now, records)
  {
    hide WayOf, DataBack, OutcomeOf, SomePulled, CePath;
  }

  /** What the backup promises, entry by entry. */
  lemma WrittenWithoutRoot(packages: seq<Package>, manifest: Manifest, files: Files, dirs: Directories,
                           answers: Answers, m: Measure)
    requires Written(manifest, files, dirs, m) && manifest.mode == "standard"
    requires Names(manifest.packages) == NamesOf(packages)
    requires manifest.legacyAdbBackupFile != "" ==>
               && manifest.legacyAdbBackupFile == LEGACY && LEGACY in files && answers.backsUp
               && StandardBackend.HoldsAllowed(files[LEGACY], NamesOf(packages), NamesOf(packages), dirs, answers)
    ensures |packages| == |manifest.packages|
    ensures forall i | 0 <= i < |packages| ::
              var e := manifest.packages[i];
              && e in manifest.packages && e.name == packages[i].name && (e.apkIncluded <==> e.apkFiles != [])
              && StandardBackend.Truthful(e, manifest.legacyAdbBackupFile, files, dirs, m)
              && (e.dataCaptureMethod == LegacyAdbBackup ==> manifest.legacyAdbBackupFile != "")
    ensures SharedRightly(manifest.legacyAdbBackupFile, files, dirs, answers)
    ensures forall name | manifest.legacyAdbBackupFile != "" && name in HeldBy(files[LEGACY]) ::
              name in NamesOf(packages)
  {
    hide StandardBackend.Truthful, StandardBackend.Reachable, Names, NamesOf, Distinct;
    NamesAre(packages, manifest.packages);
    forall i | 0 <= i < |packages| && manifest.packages[i].dataCaptureMethod == LegacyAdbBackup
      ensures manifest.legacyAdbBackupFile != ""
    {
      SharedIsNamed(manifest.packages[i], manifest.legacyAdbBackupFile, files, dirs, m);
    }
  }

  lemma SharedIsNamed(e: PackageEntry, legacy: string, files: Files, dirs: Directories, m: Measure)
    requires StandardBackend.Truthful(e, legacy, files, dirs, m) && e.dataCaptureMethod == LegacyAdbBackup
    ensures legacy != ""
  {
    hide IsValidPackageName, CePath, Captured;
  }

  /** Packages the phone has but the backup does not list are left alone: the shared archive has none of them. */
  lemma UnlistedAlone(s: Start, ready: Directories, manifest: Manifest, packages: seq<Package>, includeApks: bool,
                      from: Directories, fromAnswers: Answers, now: Directories, cancelled: bool)
    requires OthersAlone(s.(dirs := ready), manifest, now) && Names(manifest.packages) == NamesOf(packages)
    requires SharedRightly(manifest.legacyAdbBackupFile, s.files, from, fromAnswers)
    requires forall name | manifest.legacyAdbBackupFile != "" && name in HeldBy(s.files[LEGACY]) ::
               name in NamesOf(packages)
    requires if s.filter == [] then ready == s.dirs
             else Readied(s.dirs, ready, manifest.packages, includeApks, s.filter, s.answers, cancelled)
    ensures forall root, name | name !in NamesOf(packages) :: SameAt(now, s.dirs, root, name)
  {
    hide Ready, AsItWas, StandardBackend.AnySharing, StandardBackend.Reachable;
    forall root, name | name !in NamesOf(packages) ensures SameAt(now, s.dirs, root, name) {
      assert name !in BroughtBack(s.(dirs := ready), manifest);
      assert SameAt(now, ready, root, name) && SameAt(ready, s.dirs, root, name);
    }
  }

  /** The results for the packages, as the method promises them. */
  lemma AllGone(s: Start, choice: Choice, packages: seq<Package>, r: seq<PackageEntry>, from: Directories,
                fromAnswers: Answers, now: Directories, records: Records)
    requires |r| == |packages|
    requires forall i | 0 <= i < |r| ::
               Gone(s.(dirs := Base(s.dirs, r[i], choice.includeApks, Picked(r[i], choice), s.answers)),
                    choice.includeApks, packages[i], r[i], Picked(r[i], choice), from, fromAnswers, now, records)
    ensures forall i | 0 <= i < |r| && Picked(r[i], choice) ::
              var had := Awaiting(s.dirs, r[i], choice.includeApks, s.answers);
              var way := WayOf(from, fromAnswers, r[i].name);
              && (r[i].error == "" <==> Goes(packages[i], from, fromAnswers, had, s.answers, choice.includeApks, s.m))
              && (r[i].error == "" ==> Arrived(r[i].name, way, fromAnswers.allows(r[i].name), had, from, now))
              && (r[i].error == "" && way.InSharedArchive? ==>
                    && OutcomeOf(r[i], choice.includeApks, true) == Restored
                    && (DataBack(r[i], LEGACY, s.files, records.unpacked, records.legacyRestored) <==>
                        fromAnswers.allows(r[i].name)))
    ensures forall i | 0 <= i < |r| && !Picked(r[i], choice) ::
              (WayOf(from, fromAnswers, r[i].name).InSharedArchive? && fromAnswers.allows(r[i].name)) ||
              AsItWas(s.dirs, now, r[i].name)
  {
    hide Goes, Arrived, WayOf, OutcomeOf, DataBack, Picked, Awaiting, AsItWas;
  }

  /** A backup of one phone and its restore onto another, both without root, in whatever state that is and whatever adb
      answers on the way. Unless cancelled, a selected package ends without an error exactly if everything captured
      of it can be put on that phone once its app is installed. What `run-as` captured is then there, in full and owned
      by the app. A package left to the shared archive counts as restored in any case; its data was written back
      exactly if its app lets `adb backup` have it, and otherwise the phone is as if nothing had been done. What was
      not selected is touched only if it came along in the shared archive. */
  method MoveWithoutRoot(source: Phone, destination: Phone, disk: Disk, backupControl: Control,
                         restoreControl: Control, packages: seq<Package>, device: Device, createdAt: string,
                         choice: Choice, m: Measure, cast: Cast)
    returns (r: seq<PackageEntry>, summary: Summary, selected: seq<string>)
    requires source != destination && backupControl != restoreControl
    requires Measures(m) && Distinct(NamesOf(packages)) && choice.includeAppData && Storable(device, m)
    modifies disk, destination, backupControl, restoreControl
    ensures |r| == |packages| && forall i | 0 <= i < |r| ::
              && r[i].name == packages[i].name
              && (r[i].name in selected <==>
                  (choice.only == [] || r[i].name in choice.only) && r[i].name !in choice.exclude)
    ensures summary.restored == CountOf(r, selected, choice.includeApks, true, Restored)
    ensures summary.restored + summary.failed + summary.skipped == |selected|
    ensures !backupControl.cancelled && !restoreControl.cancelled ==>
              forall i | 0 <= i < |r| && r[i].name in selected ::
                var had := Awaiting(old(destination.dirs), r[i], choice.includeApks, destination.answers);
                var way := WayOf(source.dirs, source.answers, r[i].name);
                && (r[i].error == "" <==> Goes(packages[i], source.dirs, source.answers, had, destination.answers,
                                               choice.includeApks, m))
                && (r[i].error == "" ==> Arrived(r[i].name, way, source.answers.allows(r[i].name), had, source.dirs,
                                                 destination.dirs))
                && (r[i].error == "" && way.InSharedArchive? ==>
                      && OutcomeOf(r[i], choice.includeApks, true) == Restored
                      && (DataBack(r[i], LEGACY, disk.files, destination.unpacked, destination.legacyRestored) <==>
                          source.answers.allows(r[i].name)))
    ensures !backupControl.cancelled && !restoreControl.cancelled ==>
              forall i | 0 <= i < |r| && r[i].name !in selected ::
                (WayOf(source.dirs, source.answers, r[i].name).InSharedArchive? && source.answers.allows(r[i].name)) ||
                AsItWas(old(destination.dirs), destination.dirs, r[i].name)
    ensures !backupControl.cancelled ==> forall i | 0 <= i < |r| && r[i].name !in selected ::
              Accounted(r[i], packages[i], false, Options(true, true), source.dirs, source.answers)
    ensures forall root, name | name !in NamesOf(packages) ::
              SameAt(destination.dirs, old(destination.dirs), root, name)
    ensures backupControl.Later() && restoreControl.Later()
  {
    hide Written, Served, IsValidPackageName, CountOf, Picks, NamesOf, Distinct, Names, Accounted, AllKept, OthersAlone,
         SameAt, Guarded, StandardBackend.Truthful, Gone, Measures, Picked, Readied, Awaiting, Base, RootBackend.Kept,
         StandardBackend.HoldsAllowed, Shaped, ManifestFits, SharedRightly, BroughtBack, Goes, Arrived, WayOf,
         OutcomeOf, DataBack, StandardBackend.Reachable;
    var saved := RunBackup(source, disk, backupControl, packages, false, device, createdAt, Options(true, true), m);
    var manifest := ManifestIo.SaveAndLoad(saved, cast);
    Unchanged(manifest, disk.files, m);
    WrittenWithoutRoot(packages, manifest, disk.files, source.dirs, source.answers, m);
    ghost var was := destination.dirs;
    ghost var ready;
    summary, selected, r, ready := RunRestore(destination, disk, restoreControl, manifest, choice, false, disk.files,
                                              source.dirs, m);
    PicksLiterally(manifest.packages, choice);
    forall i | 0 <= i < |r|
      ensures r[i].name in selected <==> Picked(r[i], choice)
      ensures r[i].name in selected <==>
              (choice.only == [] || r[i].name in choice.only) && r[i].name !in choice.exclude
    {
      SamePick(manifest.packages[i], r[i], choice);
    }
    ghost var s := Start(selected, disk.files, was, destination.answers, m);
    ghost var records := Records(destination.installed, destination.unpacked, destination.legacyRestored);
    UnlistedAlone(s, ready, manifest, packages, choice.includeApks, source.dirs, source.answers, destination.dirs,
                  restoreControl.cancelled);
    if !backupControl.cancelled && !restoreControl.cancelled {
      forall i | 0 <= i < |r|
        ensures Gone(s.(dirs := Base(was, r[i], choice.includeApks, Picked(r[i], choice), destination.answers)),
                     choice.includeApks, packages[i], r[i], Picked(r[i], choice), source.dirs, source.answers,
                     destination.dirs, records)
      {
        var e := manifest.packages[i];
        EntryGone(s.(dirs := ready), manifest, choice.includeApks, e, packages[i], r[i], source.dirs, source.answers,
                  destination.dirs, records);
        BaseIsReady(was, ready, manifest.packages, i, choice.includeApks, selected, destination.answers, false);
        SameBase(was, e, r[i], choice.includeApks, Picked(r[i], choice), destination.answers);
        GoneRebased(s.(dirs := ready), Base(was, r[i], choice.includeApks, Picked(r[i], choice), destination.answers),
                    choice.includeApks, packages[i], r[i], Picked(r[i], choice), source.dirs, source.answers,
                    destination.dirs, records);
      }
      AllGone(s, choice, packages, r, source.dirs, source.answers, destination.dirs, records);
    }
  }
}
