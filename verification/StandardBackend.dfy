/** Capturing and restoring app data without root: through `run-as` where the app allows it, and through one
    shared `adb backup` archive for the rest. */
module StandardBackend {
  import opened Wrappers
  import opened AndroidDevice
  import opened PackageNames
  import opened Manifest
  import opened PackageEntries

  // ---------------------------------------------------------------- capturing

  /** What an entry says about captured data is so, as far as its own archive goes. An entry that counts on the
      shared archive has one on disk, which may yet lack its package: HoldsAllowed says when. */
  predicate Truthful(e: PackageEntry, legacy: string, files: Files, dirs: Directories, m: Measure) {
    && e.deDataArchive == ""
    && match e.dataCaptureMethod {
         case NotCaptured => !e.dataIncluded && e.dataArchive == ""
         case RunAsTar =>
           e.dataIncluded && e.dataArchive == CePath(e.name) && IsValidPackageName(e.name) &&
           Captured(files, dirs, CredentialEncrypted, e.name, e.dataArchive, e.dataArchiveSha256, m)
         case LegacyAdbBackup =>
           e.dataIncluded && e.dataArchive == "" && legacy == LEGACY && LEGACY in files && files[LEGACY].Legacy?
         case RootTar => false
       }
  }

  /** Whether a package's directory is captured through `run-as`. */
  predicate Reachable(dirs: Directories, answers: Answers, name: string) {
    && answers.runsAs(name) && IsValidPackageName(name)
    && (CredentialEncrypted, name) in dirs && answers.tars(CredentialEncrypted, name).Whole?
  }

  /** The entry of a package captured through `run-as`. */
  function CapturedAs(e: PackageEntry, dirs: Directories, m: Measure): PackageEntry
    requires (CredentialEncrypted, e.name) in dirs
  {
    var path, blob := CePath(e.name), Archive(e.name, dirs[(CredentialEncrypted, e.name)]);
    e.(dataIncluded := true, dataCaptureMethod := RunAsTar, dataArchive := path, dataArchiveBytes := m.size(blob),
       dataArchiveSha256 := ChecksumOrEmpty(path, blob, m))
  }

  method CaptureViaRunAs(phone: Phone, disk: Disk, e: PackageEntry, m: Measure)
    returns (r: PackageEntry, captured: bool)
    requires Measures(m) && NoData(e) && IsValidPackageName(e.name) && phone.answers.runsAs(e.name)
    modifies disk
    ensures SameBut(disk.files, old(disk.files), {CePath(e.name)})
    ensures captured <==> Reachable(phone.dirs, phone.answers, e.name)
    ensures r == if captured then CapturedAs(e, phone.dirs, m) else e
    ensures captured ==> forall legacy :: Truthful(r, legacy, disk.files, phone.dirs, m)
  {
    hide CePath, IsValidPackageName;
    var path := CePath(e.name);
    var ok := phone.TarToFile(disk, CredentialEncrypted, e.name, path);
    if !ok {
      disk.Remove(path);
      return e, false;
    }
    var length := m.size(disk.files[path]);
    if length == 0 {
      disk.Remove(path);
      return e, false;
    }
    r := e.(dataIncluded := true, dataCaptureMethod := RunAsTar, dataArchive := path, dataArchiveBytes := length,
            dataArchiveSha256 := ChecksumOrEmpty(path, disk.files[path], m));
    captured := true;
  }

  /** Archives written for one package leave those of another alone, and the legacy archive too. */
  lemma KeepsTruthful(e: PackageEntry, legacy: string, name: string, was: Files, now: Files, dirs: Directories,
                      m: Measure)
    requires Truthful(e, legacy, was, dirs, m) && SameBut(now, was, {CePath(name)})
    requires IsValidPackageName(name) && e.name != name
    ensures Truthful(e, legacy, now, dirs, m)
  {
    hide CePath, IsValidPackageName;
    NotLegacy(name);
    if IsValidPackageName(e.name) { ArchivesShareAName(e.name, name); }
  }

  lemma NotLegacy(name: string)
    ensures CePath(name) != LEGACY
  {
    assert CePath(name)[0] == 'd' && LEGACY[0] == 'l';
  }

  /** The legacy archive is none of the packages' own archives. */
  lemma LegacyKeepsTruthful(e: PackageEntry, was: Files, now: Files, dirs: Directories, m: Measure)
    requires Truthful(e, "", was, dirs, m) && SameBut(now, was, {LEGACY})
    ensures Truthful(e, "", now, dirs, m)
    ensures LEGACY in now && now[LEGACY].Legacy? ==> Truthful(e, LEGACY, now, dirs, m)
  {
    hide CePath, IsValidPackageName;
    NotLegacy(e.name);
  }

  const DECLINED := "not debuggable (no 'run-as' access) and adb backup produced no archive " +
                    "(declined on-device, or unsupported on this Android version)"

  function Declined(e: PackageEntry): PackageEntry {
    e.(error := DECLINED)
  }

  function Shared(e: PackageEntry): PackageEntry {
    e.(dataIncluded := true, dataCaptureMethod := LegacyAdbBackup)
  }

  function TriedAs(e: PackageEntry, dirs: Directories, answers: Answers, m: Measure): PackageEntry {
    if Reachable(dirs, answers, e.name) then CapturedAs(e, dirs, m) else e
  }

  /** The entry of a package asked for once all is done. */
  function BackedUp(e: PackageEntry, dirs: Directories, answers: Answers, m: Measure): PackageEntry {
    if Reachable(dirs, answers, e.name) then CapturedAs(e, dirs, m)
    else if answers.backsUp then Shared(e)
    else Declined(e)
  }

  /** An entry gets an error exactly if neither way worked, and otherwise records how its data was captured. */
  lemma BackedUpIff(e: PackageEntry, dirs: Directories, answers: Answers, m: Measure)
    requires NoData(e)
    ensures var r := BackedUp(e, dirs, answers, m);
            && (r.error != "" <==> e.error != "" || (!Reachable(dirs, answers, e.name) && !answers.backsUp))
            && (r.dataIncluded <==> Reachable(dirs, answers, e.name) || answers.backsUp)
            && (r.dataCaptureMethod == RunAsTar <==> Reachable(dirs, answers, e.name))
            && OnlyData(e, r)
  {
    hide IsValidPackageName, CePath;
  }

  /** After the packages of `done`: the entries of those that could be captured say so, the others are left over
      for the legacy archive. */
  ghost predicate Tried(entries: seq<PackageEntry>, r: seq<PackageEntry>, done: seq<string>, remaining: seq<string>,
                        dirs: Directories, answers: Answers, m: Measure) {
    && |r| == |entries|
    && (forall i | 0 <= i < |r| && entries[i].name in done :: r[i] == TriedAs(entries[i], dirs, answers, m))
    && (forall i | 0 <= i < |r| && entries[i].name !in done :: r[i] == entries[i])
    && (forall name :: name in remaining <==>
          name in done && name in Names(entries) && !Reachable(dirs, answers, name))
  }

  lemma TriedNames(entries: seq<PackageEntry>, r: seq<PackageEntry>, done: seq<string>, remaining: seq<string>,
                   dirs: Directories, answers: Answers, m: Measure)
    requires Tried(entries, r, done, remaining, dirs, answers, m)
    ensures |r| == |entries| && Names(r) == Names(entries)
    ensures forall i | 0 <= i < |r| :: r[i].name == entries[i].name
  {
    hide Reachable;
    assert forall i | 0 <= i < |r| :: r[i].name == entries[i].name;
    assert Names(r) == Names(entries);
  }

  lemma NextTried(entries: seq<PackageEntry>, r: seq<PackageEntry>, after: seq<PackageEntry>, packages: seq<string>,
                  k: nat, left: seq<string>, remaining: seq<string>, i: nat, dirs: Directories, answers: Answers,
                  m: Measure)
    requires k < |packages| && Distinct(packages) && Distinct(Names(entries))
    requires Tried(entries, r, packages[..k], left, dirs, answers, m) && i < |r| && entries[i].name == packages[k]
    requires |after| == |r| && after == r[i := TriedAs(entries[i], dirs, answers, m)]
    requires remaining == if Reachable(dirs, answers, packages[k]) then left else left + [packages[k]]
    ensures Tried(entries, after, packages[..k + 1], remaining, dirs, answers, m)
  {
    hide TriedAs, Reachable;
    var names := Names(entries);
    assert packages[..k + 1] == packages[..k] + [packages[k]];
    assert names[i] == packages[k];
    forall j | 0 <= j < |r| && j != i ensures entries[j].name != packages[k] {
      assert names[j] != names[i] by { if j < i { } else { } }
    }
  }

  lemma NoEntry(entries: seq<PackageEntry>, r: seq<PackageEntry>, packages: seq<string>, k: nat,
                remaining: seq<string>, dirs: Directories, answers: Answers, m: Measure)
    requires k < |packages| && Tried(entries, r, packages[..k], remaining, dirs, answers, m)
    requires forall j | 0 <= j < |r| :: entries[j].name != packages[k]
    ensures Tried(entries, r, packages[..k + 1], remaining, dirs, answers, m)
  {
    hide TriedAs, Reachable;
    assert packages[..k + 1] == packages[..k] + [packages[k]];
  }

  method CaptureReachable(phone: Phone, disk: Disk, control: Control, packages: seq<string>,
                          entries: seq<PackageEntry>, m: Measure)
    returns (r: seq<PackageEntry>, remaining: seq<string>, stopped: bool, ghost done: seq<string>)
    requires Measures(m) && Distinct(Names(entries)) && Distinct(packages)
    requires forall i | 0 <= i < |entries| :: NoData(entries[i])
    modifies disk, control
    ensures stopped ==> control.cancelled
    ensures control.Later()
    ensures Tried(entries, r, done, remaining, phone.dirs, phone.answers, m)
    ensures if stopped then forall name | name in done :: name in packages else done == packages
    ensures forall i | 0 <= i < |r| :: Truthful(r[i], "", disk.files, phone.dirs, m)
    ensures OnlyArchives(disk.files, old(disk.files))
  {
    hide Truthful, NoData, CePath, IsValidPackageName, Tried, TriedAs, Names, OnlyArchives, SameBut, Distinct;
    var runAs := phone.SupportingRunAs(packages);
    r, remaining, stopped, done := entries, [], false, packages;
    AllUnrecorded(entries, disk.files, phone.dirs, phone.answers, m);
    assert packages[..0] == [];
    for k := 0 to |packages|
      invariant Tried(entries, r, packages[..k], remaining, phone.dirs, phone.answers, m)
      invariant control.Later()
      invariant |r| == |entries| && forall i | 0 <= i < |r| :: Truthful(r[i], "", disk.files, phone.dirs, m)
      invariant OnlyArchives(disk.files, old(disk.files))
    {
      TriedNames(entries, r, packages[..k], remaining, phone.dirs, phone.answers, m);
      var stop := control.Requested();
      if stop { return r, remaining, true, packages[..k]; }
      var found := Find(r, packages[k]);
      if found.Some? {
        var i := found.value;
        ghost var was, before, left := disk.files, r, remaining;
        Untried(entries, r, packages, k, remaining, i, phone.dirs, phone.answers, m);
        if packages[k] in runAs && IsValidPackageName(packages[k]) {
          var e, captured := CaptureViaRunAs(phone, disk, r[i], m);
          KeepOthers(before, i, was, disk.files, phone.dirs, m);
          OneWritten(old(disk.files), was, disk.files, packages[k]);
          if captured { r := r[i := e]; } else { remaining := remaining + [packages[k]]; }
        } else {
          remaining := remaining + [packages[k]];
        }
        TriedIs(entries[i], phone.dirs, phone.answers, m);
        NextTried(entries, before, r, packages, k, left, remaining, i, phone.dirs, phone.answers, m);
      } else {
        NoEntry(entries, r, packages, k, remaining, phone.dirs, phone.answers, m);
      }
    }
    assert packages[..|packages|] == packages;
  }

  lemma TriedIs(e: PackageEntry, dirs: Directories, answers: Answers, m: Measure)
    ensures Reachable(dirs, answers, e.name) ==> TriedAs(e, dirs, answers, m) == CapturedAs(e, dirs, m)
    ensures !Reachable(dirs, answers, e.name) ==> TriedAs(e, dirs, answers, m) == e
  {
  }

  lemma OneWritten(start: Files, was: Files, now: Files, name: string)
    requires OnlyArchives(was, start) && SameBut(now, was, {CePath(name)})
    ensures OnlyArchives(now, start)
  {
    ArchivesInData(name);
    hide CePath, DePath;
  }

  lemma AllUnrecorded(entries: seq<PackageEntry>, files: Files, dirs: Directories, answers: Answers, m: Measure)
    requires forall i | 0 <= i < |entries| :: NoData(entries[i])
    ensures forall i | 0 <= i < |entries| :: Truthful(entries[i], "", files, dirs, m)
    ensures Tried(entries, entries, [], [], dirs, answers, m) && OnlyArchives(files, files)
  {
  }

  lemma KeepOthers(entries: seq<PackageEntry>, i: nat, was: Files, now: Files, dirs: Directories, m: Measure)
    requires i < |entries| && Distinct(Names(entries)) && IsValidPackageName(entries[i].name) && NoData(entries[i])
    requires SameBut(now, was, {CePath(entries[i].name)})
    requires forall j | 0 <= j < |entries| :: Truthful(entries[j], "", was, dirs, m)
    ensures forall j | 0 <= j < |entries| :: Truthful(entries[j], "", now, dirs, m)
  {
    hide CePath, IsValidPackageName;
    forall j | 0 <= j < |entries| ensures Truthful(entries[j], "", now, dirs, m) {
      var names := Names(entries);
      if j != i {
        assert names[j] != names[i] by { if j < i { } else { } }
        KeepsTruthful(entries[j], "", entries[i].name, was, now, dirs, m);
      }
    }
  }

  /** A package whose turn comes has no data recorded yet. */
  lemma Untried(entries: seq<PackageEntry>, r: seq<PackageEntry>, packages: seq<string>, k: nat,
                remaining: seq<string>, i: nat, dirs: Directories, answers: Answers, m: Measure)
    requires k < |packages| && Distinct(packages) && Distinct(Names(entries))
    requires Tried(entries, r, packages[..k], remaining, dirs, answers, m) && i < |r| && r[i].name == packages[k]
    requires forall j | 0 <= j < |entries| :: NoData(entries[j])
    ensures r[i] == entries[i] && NoData(r[i]) && Distinct(Names(r))
  {
    hide NoData, Reachable;
    TriedNames(entries, r, packages[..k], remaining, dirs, answers, m);
  }

  /** Marks the entries of the packages left over, the way the legacy step came out. */
  method MarkRemaining(entries: seq<PackageEntry>, remaining: seq<string>, success: bool) returns (r: seq<PackageEntry>)
    requires Distinct(Names(entries))
    ensures |r| == |entries|
    ensures forall i | 0 <= i < |r| ::
              r[i] == if entries[i].name !in remaining then entries[i]
                      else if success then Shared(entries[i]) else Declined(entries[i])
  {
    r := entries;
    ghost var names := Names(entries);
    for k := 0 to |remaining|
      invariant |r| == |entries|
      invariant forall i | 0 <= i < |r| ::
                  r[i] == if entries[i].name !in remaining[..k] then entries[i]
                          else if success then Shared(entries[i]) else Declined(entries[i])
    {
      assert remaining[..k + 1] == remaining[..k] + [remaining[k]];
      var found := Find(r, remaining[k]);
      if found.Some? {
        var i := found.value;
        forall j | 0 <= j < |entries| && j != i ensures entries[j].name != entries[i].name {
          assert names[j] != names[i] by { if j < i { } else { } }
        }
        r := r[i := if success then Shared(r[i]) else Declined(r[i])];
      }
    }
    assert remaining[..|remaining|] == remaining;
  }

  method AskForLegacy(phone: Phone, disk: Disk, remaining: seq<string>) returns (success: bool)
    modifies disk
    ensures success == phone.answers.backsUp && SameBut(disk.files, old(disk.files), {LEGACY})
    ensures success ==>
              && LEGACY in disk.files
              && disk.files[LEGACY] == Legacy(set name | name in remaining && phone.answers.allows(name))
  {
    success := phone.LegacyBackup(disk, LEGACY, remaining);
    if !success { disk.Remove(LEGACY); }
  }

  /** Some package asked for is left to the legacy archive. */
  predicate SomeLeft(entries: seq<PackageEntry>, packages: seq<string>, dirs: Directories, answers: Answers) {
    exists i :: 0 <= i < |entries| && entries[i].name in packages && !Reachable(dirs, answers, entries[i].name)
  }

  /** The shared archive holds exactly the packages that were left to it and whose apps allow it. */
  ghost predicate HoldsAllowed(blob: Blob, names: seq<string>, packages: seq<string>, dirs: Directories,
                               answers: Answers) {
    blob.Legacy? && forall name :: name in blob.holds <==>
      name in packages && name in names && !Reachable(dirs, answers, name) && answers.allows(name)
  }

  /** The whole step. Every entry is as it was or what its package's turn makes of it, and tells the truth about
      its own archive. Unless cancelled every package asked for has had its turn. If a shared archive is made, it
      holds the packages that allow it, and every package left over is marked as held there. */
  method BackupAppData(phone: Phone, disk: Disk, control: Control, packages: seq<string>, entries: seq<PackageEntry>,
                       m: Measure)
    returns (r: seq<PackageEntry>, legacy: string)
    requires Measures(m) && Distinct(Names(entries)) && Distinct(packages)
    requires forall i | 0 <= i < |entries| :: NoData(entries[i])
    modifies disk, control
    ensures |r| == |entries|
    ensures forall i | 0 <= i < |r| :: Truthful(r[i], legacy, disk.files, phone.dirs, m)
    ensures forall i | 0 <= i < |r| :: r[i] == entries[i] ||
              (entries[i].name in packages && r[i] == BackedUp(entries[i], phone.dirs, phone.answers, m))
    ensures !control.cancelled ==>
              && (forall i | 0 <= i < |r| && entries[i].name in packages ::
                    r[i] == BackedUp(entries[i], phone.dirs, phone.answers, m))
              && legacy == if phone.answers.backsUp && SomeLeft(entries, packages, phone.dirs, phone.answers)
                           then LEGACY else ""
    ensures legacy != "" ==>
              && legacy == LEGACY && LEGACY in disk.files && phone.answers.backsUp
              && HoldsAllowed(disk.files[LEGACY], Names(entries), packages, phone.dirs, phone.answers)
    ensures OnlyArchives(disk.files, old(disk.files))
    ensures control.Later()
  {
    hide Truthful, NoData, CePath, IsValidPackageName, Reachable, TriedAs, BackedUp, Tried, OnlyArchives, SameBut,
         Distinct, Names;
    legacy := "";
    AllUnrecorded(entries, disk.files, phone.dirs, phone.answers, m);
    if packages == [] { return entries, ""; }
    var remaining, stopped;
    ghost var done;
    r, remaining, stopped, done := CaptureReachable(phone, disk, control, packages, entries, m);
    TriedNames(entries, r, done, remaining, phone.dirs, phone.answers, m);
    Settled(entries, r, done, remaining, packages, phone.dirs, phone.answers, m);
    if stopped || remaining == [] { return; }
    ghost var was, before := disk.files, r;
    var success := AskForLegacy(phone, disk, remaining);
    if success {
      legacy := LEGACY;
      LeftOver(entries, before, packages, remaining, phone.dirs, phone.answers, m);
    }
    LegacyWritten(old(disk.files), was, disk.files);
    r := MarkRemaining(r, remaining, success);
    forall i | 0 <= i < |r|
      ensures Truthful(r[i], legacy, disk.files, phone.dirs, m)
      ensures entries[i].name in packages ==> r[i] == BackedUp(entries[i], phone.dirs, phone.answers, m)
      ensures entries[i].name !in packages ==> r[i] == entries[i]
    {
      Left(entries, before, packages, remaining, i, phone.dirs, phone.answers, m);
      Marked(entries[i], before[i], r[i], was, disk.files, phone.dirs, success, before[i].name in remaining, m);
    }
  }

  /** The entries before the legacy step; if nothing is left over they are final. */
  lemma Settled(entries: seq<PackageEntry>, r: seq<PackageEntry>, done: seq<string>, remaining: seq<string>,
                packages: seq<string>, dirs: Directories, answers: Answers, m: Measure)
    requires Tried(entries, r, done, remaining, dirs, answers, m) && forall name | name in done :: name in packages
    ensures |r| == |entries|
    ensures forall i | 0 <= i < |r| :: r[i] == entries[i] ||
              (entries[i].name in packages && r[i] == BackedUp(entries[i], dirs, answers, m))
    ensures done == packages ==> (remaining != [] <==> SomeLeft(entries, packages, dirs, answers))
    ensures done == packages && remaining == [] ==>
              forall i | 0 <= i < |r| && entries[i].name in packages :: r[i] == BackedUp(entries[i], dirs, answers, m)
  {
    hide CapturedAs, Reachable;
    var names := Names(entries);
    forall i | 0 <= i < |r|
      ensures names[i] in done && !Reachable(dirs, answers, names[i]) ==> names[i] in remaining && remaining != []
    {
      assert names[i] in names;
    }
    if done == packages && remaining != [] {
      assert remaining[0] in names;
      var i :| 0 <= i < |names| && names[i] == remaining[0];
      assert entries[i].name in packages && !Reachable(dirs, answers, entries[i].name);
    }
  }

  lemma Left(entries: seq<PackageEntry>, before: seq<PackageEntry>, packages: seq<string>, remaining: seq<string>,
             i: nat, dirs: Directories, answers: Answers, m: Measure)
    requires Tried(entries, before, packages, remaining, dirs, answers, m) && i < |entries|
    requires forall j | 0 <= j < |entries| :: NoData(entries[j])
    ensures var e := entries[i];
            && (e.name in remaining ==>
                  && before[i] == e && NoData(e) && e.name in packages
                  && BackedUp(e, dirs, answers, m) == if answers.backsUp then Shared(e) else Declined(e))
            && (e.name !in remaining && e.name in packages ==> before[i] == BackedUp(e, dirs, answers, m))
            && (e.name !in packages ==> before[i] == e)
  {
    hide CapturedAs, Reachable, NoData;
    assert Names(entries)[i] in Names(entries);
  }

  lemma LeftOver(entries: seq<PackageEntry>, before: seq<PackageEntry>, packages: seq<string>,
                 remaining: seq<string>, dirs: Directories, answers: Answers, m: Measure)
    requires Tried(entries, before, packages, remaining, dirs, answers, m)
    ensures HoldsAllowed(Legacy(set name | name in remaining && answers.allows(name)), Names(entries), packages, dirs,
                         answers)
  {
    hide TriedAs, Reachable, Names;
  }

  /** A package counts on the shared archive; it is in there exactly if its app allows that. */
  lemma SharedIffAllowed(entries: seq<PackageEntry>, packages: seq<string>, i: nat, r: PackageEntry, blob: Blob,
                         dirs: Directories, answers: Answers, m: Measure)
    requires i < |entries| && NoData(entries[i]) && r.dataCaptureMethod == LegacyAdbBackup
    requires r == entries[i] || (entries[i].name in packages && r == BackedUp(entries[i], dirs, answers, m))
    requires HoldsAllowed(blob, Names(entries), packages, dirs, answers)
    ensures r.name in HeldBy(blob) <==> answers.allows(r.name)
  {
    hide Reachable, BackedUp;
    assert Names(entries)[i] in Names(entries);
    BackedUpIff(entries[i], dirs, answers, m);
  }

  lemma LegacyWritten(start: Files, was: Files, now: Files)
    requires OnlyArchives(was, start) && SameBut(now, was, {LEGACY})
    ensures OnlyArchives(now, start)
  {
  }

  lemma Marked(e: PackageEntry, before: PackageEntry, r: PackageEntry, was: Files, now: Files, dirs: Directories,
               success: bool, left: bool, m: Measure)
    requires Truthful(before, "", was, dirs, m) && SameBut(now, was, {LEGACY})
    requires left ==> before == e && NoData(e)
    requires success ==> LEGACY in now && now[LEGACY].Legacy?
    requires r == if !left then before else if success then Shared(before) else Declined(before)
    ensures Truthful(r, if success then LEGACY else "", now, dirs, m)
  {
    hide CePath, IsValidPackageName;
    LegacyKeepsTruthful(before, was, now, dirs, m);
  }

  // ---------------------------------------------------------------- restoring

  predicate Selected(e: PackageEntry, filter: seq<string>) {
    e.dataIncluded && (filter == [] || e.name in filter)
  }

  predicate OwnArchive(e: PackageEntry, filter: seq<string>) {
    Selected(e, filter) && e.dataCaptureMethod == RunAsTar && e.dataArchive != ""
  }

  /** The archive is there, has the digest recorded for it, and the name is one. */
  predicate Sound(e: PackageEntry, files: Files, m: Measure) {
    IsValidPackageName(e.name) && e.dataArchive in files &&
    ChecksumMatches(e.dataArchive, files[e.dataArchive], e.dataArchiveSha256, m)
  }

  /** What an entry with an archive of its own needs for its data to come back without an error. */
  predicate Restorable(e: PackageEntry, files: Files, keys: set<(Root, string)>, answers: Answers, m: Measure) {
    && Sound(e, files, m) && CanUnpackAs(keys, e.name, files[e.dataArchive])
    && answers.unpacksAs(e.name).Through?
  }

  /** The phone after the turn of such an entry. */
  function EntryAfter(e: PackageEntry, files: Files, dirs: Directories, answers: Answers, m: Measure): Directories {
    if !Sound(e, files, m) then dirs
    else AfterUnpackAs(dirs, e.name, files[e.dataArchive], answers.unpacksAs(e.name))
  }

  /** Unpacked by the app itself: what the archive holds is there, and everything unpacked belongs to the app. */
  function UnpackedAs(was: Directory, from: Directory): Directory {
    Directory(was.owner, was.files + Chowned(from, was.owner, {}).files)
  }

  lemma EntryRestored(e: PackageEntry, files: Files, dirs: Directories, answers: Answers, m: Measure)
    ensures Restorable(e, files, dirs.Keys, answers, m) ==>
              EntryAfter(e, files, dirs, answers, m) ==
              dirs[(CredentialEncrypted, e.name) :=
                UnpackedAs(dirs[(CredentialEncrypted, e.name)], files[e.dataArchive].directory)]
    ensures EntryAfter(e, files, dirs, answers, m).Keys == dirs.Keys
    ensures SameBut(EntryAfter(e, files, dirs, answers, m), dirs, {(CredentialEncrypted, e.name)})
  {
    hide IsValidPackageName, ChecksumMatches, PartOf;
  }

  datatype Reason = BadName | ArchiveMissing | Mismatch | NotUnpacked

  function ErrorText(why: Reason, path: string): (text: string)
    ensures text != ""
  {
    match why
    case BadName => "invalid package name, skipped restore"
    case ArchiveMissing => "data archive missing on disk: " + path
    case Mismatch => "checksum mismatch for data archive, refusing to restore"
    case NotUnpacked => "failed to extract app data archive via 'run-as' (is the app still debuggable?)"
  }

  /** One package with an archive of its own. */
  method RestoreEntry(phone: Phone, disk: Disk, e: PackageEntry, m: Measure) returns (error: string)
    modifies phone`dirs, phone`unpacked
    ensures error == "" <==> Restorable(e, disk.files, old(phone.dirs).Keys, phone.answers, m)
    ensures phone.dirs == EntryAfter(e, disk.files, old(phone.dirs), phone.answers, m)
    ensures old(phone.unpacked) <= phone.unpacked
    ensures error == "" ==> (CredentialEncrypted, e.name, disk.files[e.dataArchive]) in phone.unpacked
  {
    hide IsValidPackageName, AfterUnpackAs, ErrorText;
    if !IsValidPackageName(e.name) { return ErrorText(BadName, ""); }
    if e.dataArchive !in disk.files { return ErrorText(ArchiveMissing, e.dataArchive); }
    if !ChecksumMatches(e.dataArchive, disk.files[e.dataArchive], e.dataArchiveSha256, m) {
      return ErrorText(Mismatch, "");
    }
    var ok := phone.UnpackAs(e.name, disk.files[e.dataArchive]);
    if !ok { return ErrorText(NotUnpacked, ""); }
    return "";
  }

  function TurnOf(s: Start, e: PackageEntry): Directories {
    if OwnArchive(e, s.filter) then EntryAfter(e, s.files, s.dirs, s.answers, s.m) else s.dirs
  }

  /** What the turn of an entry makes of its error and its directory. */
  ghost predicate TurnDone(s: Start, e: PackageEntry, r: PackageEntry, now: Directories,
                           unpacked: set<(Root, string, Blob)>) {
    && r == e.(error := r.error) && (!OwnArchive(e, s.filter) ==> r == e)
    && (r.error == "" <==>
        e.error == "" && (OwnArchive(e, s.filter) ==> Restorable(e, s.files, s.dirs.Keys, s.answers, s.m)))
    && SameAt(now, TurnOf(s, e), CredentialEncrypted, e.name)
    && (r.error == "" && OwnArchive(e, s.filter) ==>
          e.dataArchive in s.files && (CredentialEncrypted, e.name, s.files[e.dataArchive]) in unpacked)
  }

  /** What the loop over the entries has achieved after i of them. */
  ghost predicate SoFar(s: Start, entries: seq<PackageEntry>, r: seq<PackageEntry>, i: nat, now: Directories,
                        unpacked: set<(Root, string, Blob)>) {
    && i <= |entries| == |r|
    && now.Keys == s.dirs.Keys
    && (forall j | 0 <= j < i :: TurnDone(s, entries[j], r[j], now, unpacked))
    && (forall j | i <= j < |r| :: r[j] == entries[j])
    && (forall root, name | root == DeviceProtected || name !in Names(entries)[..i] :: SameAt(now, s.dirs, root, name))
  }

  lemma NothingYet(s: Start, entries: seq<PackageEntry>, unpacked: set<(Root, string, Blob)>)
    ensures SoFar(s, entries, entries, 0, s.dirs, unpacked)
  {
  }

  lemma ThisTurn(s: Start, e: PackageEntry, error: string, mid: Directories, unpacked: set<(Root, string, Blob)>)
    requires OwnArchive(e, s.filter) && mid.Keys == s.dirs.Keys && SameAt(mid, s.dirs, CredentialEncrypted, e.name)
    requires error == "" <==> Restorable(e, s.files, s.dirs.Keys, s.answers, s.m)
    requires error == "" ==> (CredentialEncrypted, e.name, s.files[e.dataArchive]) in unpacked
    ensures var r := e.(error := if error != "" then error else e.error);
            var now := EntryAfter(e, s.files, mid, s.answers, s.m);
            && TurnDone(s, e, r, now, unpacked) && now.Keys == s.dirs.Keys
            && SameBut(now, mid, {(CredentialEncrypted, e.name)})
  {
    hide IsValidPackageName, ChecksumMatches, PartOf, Unpacked, Chowned, OwnArchive;
    EntryRestored(e, s.files, mid, s.answers, s.m);
  }

  lemma StaysPut(s: Start, e: PackageEntry, now: Directories, unpacked: set<(Root, string, Blob)>)
    requires !OwnArchive(e, s.filter) && SameAt(now, s.dirs, CredentialEncrypted, e.name)
    ensures TurnDone(s, e, e, now, unpacked) && SameBut(now, now, {(CredentialEncrypted, e.name)})
  {
  }

  lemma Advances(s: Start, entries: seq<PackageEntry>, r: seq<PackageEntry>, after: seq<PackageEntry>, i: nat,
                 mid: Directories, now: Directories, unpacked: set<(Root, string, Blob)>,
                 more: set<(Root, string, Blob)>)
    requires Distinct(Names(entries)) && i < |entries| == |r| == |after| && unpacked <= more
    requires SoFar(s, entries, r, i, mid, unpacked)
    requires after == r[i := after[i]] && TurnDone(s, entries[i], after[i], now, more) && now.Keys == s.dirs.Keys
    requires SameBut(now, mid, {(CredentialEncrypted, entries[i].name)})
    ensures SoFar(s, entries, after, i + 1, now, more)
  {
    hide TurnDone;
    var names := Names(entries);
    assert names[..i + 1] == names[..i] + [names[i]];
    forall j | 0 <= j < i ensures TurnDone(s, entries[j], after[j], now, more) {
      assert names[j] != names[i];
      OtherKept(s, entries[j], r[j], names[i], mid, now, unpacked, more);
    }
    forall root, name | root == DeviceProtected || name !in names[..i + 1] ensures SameAt(now, s.dirs, root, name) {
      assert SameAt(mid, s.dirs, root, name);
    }
  }

  lemma OtherKept(s: Start, e: PackageEntry, r: PackageEntry, name: string, mid: Directories, now: Directories,
                  unpacked: set<(Root, string, Blob)>, more: set<(Root, string, Blob)>)
    requires TurnDone(s, e, r, mid, unpacked) && unpacked <= more && e.name != name
    requires SameBut(now, mid, {(CredentialEncrypted, name)})
    ensures TurnDone(s, e, r, now, more)
  {
    hide TurnOf, Restorable, OwnArchive;
  }

  lemma AsBefore(s: Start, entries: seq<PackageEntry>, r: seq<PackageEntry>, i: nat, now: Directories,
                 unpacked: set<(Root, string, Blob)>)
    requires Distinct(Names(entries)) && i < |entries| && SoFar(s, entries, r, i, now, unpacked)
    ensures |r| == |entries| && r[i] == entries[i] && now.Keys == s.dirs.Keys
    ensures SameAt(now, s.dirs, CredentialEncrypted, entries[i].name)
  {
    hide TurnDone, SameAt;
    assert Names(entries)[i] !in Names(entries)[..i];
  }

  lemma SoFarMeans(s: Start, entries: seq<PackageEntry>, r: seq<PackageEntry>, i: nat, now: Directories,
                   unpacked: set<(Root, string, Blob)>)
    requires Distinct(Names(entries)) && SoFar(s, entries, r, i, now, unpacked)
    ensures i <= |entries| == |r| && now.Keys == s.dirs.Keys
    ensures forall j | 0 <= j < i :: TurnDone(s, entries[j], r[j], now, unpacked)
    ensures forall j | i <= j < |r| :: r[j] == entries[j]
    ensures forall j | i <= j < |r| :: SameAt(now, s.dirs, CredentialEncrypted, entries[j].name)
    ensures forall root, name | root == DeviceProtected || name !in Names(entries) :: SameAt(now, s.dirs, root, name)
  {
    hide TurnDone, SameAt;
    var names := Names(entries);
    forall j | i <= j < |r| ensures names[j] !in names[..i] {
    }
  }

  /** A package asked for whose data is in the shared archive. */
  predicate Sharing(e: PackageEntry, filter: seq<string>) {
    e.dataCaptureMethod == LegacyAdbBackup && (filter == [] || e.name in filter)
  }

  predicate AnySharing(entries: seq<PackageEntry>, filter: seq<string>) {
    exists i :: 0 <= i < |entries| && entries[i].dataIncluded && Sharing(entries[i], filter)
  }

  /** The part of the restore that goes package by package. */
  method RestoreReachable(phone: Phone, disk: Disk, control: Control, entries: seq<PackageEntry>, filter: seq<string>,
                          m: Measure)
    returns (r: seq<PackageEntry>, anyLegacy: bool, stopped: bool, ghost done: nat)
    requires Distinct(Names(entries))
    modifies phone`dirs, phone`unpacked, control
    ensures SoFar(Start(filter, disk.files, old(phone.dirs), phone.answers, m), entries, r, done, phone.dirs,
                  phone.unpacked)
    ensures if stopped then control.cancelled else done == |entries|
    ensures !stopped ==> (anyLegacy <==> AnySharing(entries, filter))
    ensures control.Later() && old(phone.unpacked) <= phone.unpacked
  {
    hide SoFar, Sound, TurnDone, Names, IsValidPackageName, Restorable, EntryAfter, SameAt, SameBut, Distinct;
    r, anyLegacy, stopped := entries, false, false;
    ghost var s := Start(filter, disk.files, phone.dirs, phone.answers, m);
    NothingYet(s, entries, phone.unpacked);
    var i := 0;
    while i < |entries|
      invariant 0 <= i <= |entries| == |r|
      invariant SoFar(s, entries, r, i, phone.dirs, phone.unpacked)
      invariant anyLegacy <==> exists j :: 0 <= j < i && entries[j].dataIncluded && Sharing(entries[j], filter)
      invariant control.Later() && old(phone.unpacked) <= phone.unpacked
    {
      AsBefore(s, entries, r, i, phone.dirs, phone.unpacked);
      var e := r[i];
      ghost var mid, seen, before := phone.dirs, phone.unpacked, r;
      if !OwnArchive(e, filter) { StaysPut(s, e, mid, seen); }
      if Selected(e, filter) {
        var stop := control.Requested();
        if stop { return r, anyLegacy, true, i; }
        if e.dataCaptureMethod == LegacyAdbBackup {
          anyLegacy := true;
        } else if e.dataCaptureMethod == RunAsTar && e.dataArchive != "" {
          var error := RestoreEntry(phone, disk, e, m);
          ThisTurn(s, e, error, mid, phone.unpacked);
          if error != "" { r := r[i := e.(error := error)]; }
        }
      }
      Advances(s, entries, before, r, i, mid, phone.dirs, seen, phone.unpacked);
      i := i + 1;
    }
    done := i;
  }

  /** Gives every selected package of the legacy archive an error. */
  method FailLegacy(entries: seq<PackageEntry>, filter: seq<string>, error: string) returns (r: seq<PackageEntry>)
    ensures |r| == |entries|
    ensures forall i | 0 <= i < |r| ::
              r[i] == if Sharing(entries[i], filter) then entries[i].(error := error) else entries[i]
  {
    r := entries;
    for i := 0 to |entries|
      invariant |r| == |entries| && forall j | i <= j < |r| :: r[j] == entries[j]
      invariant forall j | 0 <= j < i ::
                  r[j] == if Sharing(entries[j], filter) then entries[j].(error := error) else entries[j]
    {
      if r[i].dataCaptureMethod == LegacyAdbBackup && (filter == [] || r[i].name in filter) {
        r := r[i := r[i].(error := error)];
      }
    }
  }

  function LegacyMissing(legacy: string): (text: string)
    ensures text != ""
  {
    "legacy backup archive missing: " + legacy
  }

  /** The packages whose directories the shared archive brings back, if `adb restore` is run on it. */
  function Overlaid(ran: bool, files: Files, legacy: string): set<string> {
    if ran && legacy in files then HeldBy(files[legacy]) else {}
  }

  const LEGACY_FAILED := "adb restore failed, or was declined on the device"

  /** The shared archive, as a whole. */
  method RestoreLegacy(phone: Phone, disk: Disk, entries: seq<PackageEntry>, legacy: string, filter: seq<string>)
    returns (r: seq<PackageEntry>, ghost ran: bool)
    modifies phone`dirs, phone`legacyRestored
    ensures |r| == |entries|
    ensures ran <==> legacy in disk.files
    ensures forall root, name | name !in Overlaid(ran, disk.files, legacy) ::
              SameAt(phone.dirs, old(phone.dirs), root, name)
    ensures forall i | 0 <= i < |r| :: r[i].error == "" ==> r[i] == entries[i]
    ensures forall i | 0 <= i < |r| :: r[i] == entries[i].(error := r[i].error)
    ensures forall i | 0 <= i < |r| ::
              if Sharing(entries[i], filter) && !(ran && phone.answers.restores) then r[i].error != ""
              else r[i] == entries[i]
    ensures old(phone.legacyRestored) <= phone.legacyRestored
    ensures ran && phone.answers.restores ==> disk.files[legacy] in phone.legacyRestored
  {
    hide LegacyMissing, Sharing;
    ran := legacy in disk.files;
    if legacy !in disk.files {
      SameAsItself(phone.dirs);
      r := FailLegacy(entries, filter, LegacyMissing(legacy));
    } else {
      var ok := phone.LegacyRestore(disk.files[legacy]);
      r := entries;
      if !ok { r := FailLegacy(entries, filter, LEGACY_FAILED); }
    }
  }

  /** The shared archive is asked for. */
  predicate LegacyDue(entries: seq<PackageEntry>, legacy: string, filter: seq<string>) {
    legacy != "" && AnySharing(entries, filter)
  }

  /** Everything an entry needs for its data to come back, from its own archive or from the shared one. */
  predicate Servable(s: Start, entries: seq<PackageEntry>, legacy: string, e: PackageEntry) {
    && (OwnArchive(e, s.filter) ==> Restorable(e, s.files, s.dirs.Keys, s.answers, s.m))
    && (Sharing(e, s.filter) && LegacyDue(entries, legacy, s.filter) ==> legacy in s.files && s.answers.restores)
  }

  /** The whole step. Unless cancelled, an entry has an error exactly if it had one before or something it needs
      is not there. Where no `adb restore` of the shared archive brings a package back, its directories are what the
      turn of its entry makes of them. */
  method RestoreAppData(phone: Phone, disk: Disk, control: Control, entries: seq<PackageEntry>, legacy: string,
                        filter: seq<string>, m: Measure)
    returns (r: seq<PackageEntry>, ghost legacyRan: bool, ghost done: nat)
    requires Distinct(Names(entries))
    modifies phone`dirs, phone`unpacked, phone`legacyRestored, control
    ensures done <= |entries| == |r| && (!control.cancelled ==> done == |entries|)
    ensures forall i | 0 <= i < |r| :: OnlyError(entries[i], r[i])
    ensures forall i | 0 <= i < |r| && !(i < done && (OwnArchive(entries[i], filter) || Sharing(entries[i], filter))) ::
              r[i] == entries[i]
    ensures var s := Start(filter, disk.files, old(phone.dirs), phone.answers, m);
            && (!control.cancelled ==>
                  forall i | 0 <= i < |r| ::
                    r[i].error == "" <==> entries[i].error == "" && Servable(s, entries, legacy, entries[i]))
            && (forall i | 0 <= i < |r| && entries[i].name !in Overlaid(legacyRan, disk.files, legacy) ::
                  SameAt(phone.dirs, if i < done then TurnOf(s, entries[i]) else s.dirs, CredentialEncrypted,
                         entries[i].name))
            && (forall root, name | (root == DeviceProtected || name !in Names(entries)) &&
                                    name !in Overlaid(legacyRan, disk.files, legacy) ::
                  SameAt(phone.dirs, s.dirs, root, name))
    ensures legacyRan ==> LegacyDue(entries, legacy, filter) && legacy in disk.files
    ensures forall i | 0 <= i < done && OwnArchive(entries[i], filter) && r[i].error == "" ::
              entries[i].dataArchive in disk.files &&
              (CredentialEncrypted, entries[i].name, disk.files[entries[i].dataArchive]) in phone.unpacked
    ensures !control.cancelled && LegacyDue(entries, legacy, filter) && legacy in disk.files &&
            phone.answers.restores ==>
              disk.files[legacy] in phone.legacyRestored
    ensures control.Later()
    ensures old(phone.unpacked) <= phone.unpacked && old(phone.legacyRestored) <= phone.legacyRestored
  {
    hide SoFar, Names, IsValidPackageName, TurnDone, Restorable, EntryAfter, SameAt, AnySharing, Distinct, Overlaid,
         TurnOf;
    legacyRan := false;
    var anyLegacy, stopped;
    ghost var s := Start(filter, disk.files, phone.dirs, phone.answers, m);
    r, anyLegacy, stopped, done := RestoreReachable(phone, disk, control, entries, filter, m);
    SoFarMeans(s, entries, r, done, phone.dirs, phone.unpacked);
    TurnsMean(s, entries, r, done, phone.dirs, phone.unpacked);
    if stopped || legacy == "" || !anyLegacy { return; }
    ghost var mid := phone.dirs;
    r, legacyRan := RestoreLegacy(phone, disk, r, legacy, filter);
    OnlyOverlaid(s, entries, done, mid, phone.dirs, Overlaid(legacyRan, disk.files, legacy));
  }

  lemma OnlyOverlaid(s: Start, entries: seq<PackageEntry>, done: nat, mid: Directories, now: Directories,
                     overlaid: set<string>)
    requires forall root, name | name !in overlaid :: SameAt(now, mid, root, name)
    requires forall j | 0 <= j < |entries| ::
               SameAt(mid, if j < done then TurnOf(s, entries[j]) else s.dirs, CredentialEncrypted, entries[j].name)
    requires forall root, name | root == DeviceProtected || name !in Names(entries) :: SameAt(mid, s.dirs, root, name)
    ensures forall j | 0 <= j < |entries| && entries[j].name !in overlaid ::
              SameAt(now, if j < done then TurnOf(s, entries[j]) else s.dirs, CredentialEncrypted, entries[j].name)
    ensures forall root, name | (root == DeviceProtected || name !in Names(entries)) && name !in overlaid ::
              SameAt(now, s.dirs, root, name)
  {
    hide TurnOf, Names;
    forall j | 0 <= j < |entries| && entries[j].name !in overlaid
      ensures SameAt(now, if j < done then TurnOf(s, entries[j]) else s.dirs, CredentialEncrypted, entries[j].name)
    {
      assert SameAt(now, mid, CredentialEncrypted, entries[j].name);
    }
    forall root, name | (root == DeviceProtected || name !in Names(entries)) && name !in overlaid
      ensures SameAt(now, s.dirs, root, name)
    {
      assert SameAt(now, mid, root, name) && SameAt(mid, s.dirs, root, name);
    }
  }

  lemma TurnsMean(s: Start, entries: seq<PackageEntry>, r: seq<PackageEntry>, done: nat, now: Directories,
                  unpacked: set<(Root, string, Blob)>)
    requires done <= |entries| == |r|
    requires forall j | 0 <= j < done :: TurnDone(s, entries[j], r[j], now, unpacked)
    requires forall j | done <= j < |r| :: r[j] == entries[j]
    ensures forall j | 0 <= j < |r| :: OnlyError(entries[j], r[j])
    ensures forall j | 0 <= j < done :: !OwnArchive(entries[j], s.filter) ==> r[j] == entries[j]
    ensures forall j | 0 <= j < done ::
              && (r[j].error == "" <==>
                  entries[j].error == "" &&
                  (OwnArchive(entries[j], s.filter) ==>
                     Restorable(entries[j], s.files, s.dirs.Keys, s.answers, s.m)))
              && SameAt(now, TurnOf(s, entries[j]), CredentialEncrypted, entries[j].name)
              && (r[j].error == "" && OwnArchive(entries[j], s.filter) ==>
                    entries[j].dataArchive in s.files &&
                    (CredentialEncrypted, entries[j].name, s.files[entries[j].dataArchive]) in unpacked)
  {
    hide Restorable, TurnOf, OwnArchive;
  }

  // ---------------------------------------------------------------- there and back

  /** The app's directory on the phone has its owner and everything it had, with the files of the other phone's
      directory over it, which now belong to the app. */
  predicate HeldByApp(now: Directories, had: Directories, from: Directories, name: string) {
    var key := (CredentialEncrypted, name);
    && key in now && key in had && key in from
    && now[key].owner == had[key].owner && now[key].files.Keys == had[key].files.Keys + from[key].files.Keys
    && (forall path | path in from[key].files ::
          now[key].files[path] == Node(from[key].files[path].content, had[key].owner))
    && (forall path | path in had[key].files && path !in from[key].files ::
          now[key].files[path] == had[key].files[path])
  }

  lemma UnpackedAsContents(now: Directories, had: Directories, from: Directories, name: string)
    requires var key := (CredentialEncrypted, name);
             key in now && key in had && key in from && now[key] == UnpackedAs(had[key], from[key])
    ensures HeldByApp(now, had, from, name)
  {
  }

  /** What the turn of an entry captured through `run-as` makes of a phone. */
  lemma AppHolds(s: Start, e: PackageEntry, legacy: string, files: Files, phone: Directories, now: Directories)
    requires Truthful(e, legacy, files, phone, s.m) && e.dataCaptureMethod == RunAsTar
    requires Guarded(e, files, s.files, s.m)
    requires (s.filter == [] || e.name in s.filter) && SameAt(now, TurnOf(s, e), CredentialEncrypted, e.name)
    requires Restorable(e, s.files, s.dirs.Keys, s.answers, s.m)
    ensures HeldByApp(now, s.dirs, phone, e.name)
  {
    hide IsValidPackageName, UnpackedAs, EntryAfter, CePath, HeldByApp;
    PathIsSome(e.name);
    EntryRestored(e, s.files, s.dirs, s.answers, s.m);
    UnpackedAsContents(now, s.dirs, phone, e.name);
  }

  lemma PathIsSome(name: string)
    ensures CePath(name) != ""
  {
    ArchivesInData(name);
  }

  /** What an entry captured through `run-as` needs. */
  lemma AppNeeds(s: Start, e: PackageEntry, legacy: string, files: Files, phone: Directories)
    requires Truthful(e, legacy, files, phone, s.m) && e.dataCaptureMethod == RunAsTar
    requires Guarded(e, files, s.files, s.m)
    ensures Restorable(e, s.files, s.dirs.Keys, s.answers, s.m) <==>
            Sound(e, s.files, s.m) && (CredentialEncrypted, e.name) in s.dirs && s.answers.unpacksAs(e.name).Through?
    ensures s.filter == [] || e.name in s.filter ==> OwnArchive(e, s.filter)
  {
    hide IsValidPackageName, CePath;
    PathIsSome(e.name);
  }

  /** Capture through `run-as`, any change to the backup directory that its digests can tell, and a restore onto a
      phone in any state. The package comes back without an error exactly if its archive passes the check, its
      directory is there and unpacking goes through; then the directory holds all the other phone had, and owns
      it. */
  lemma RestoresWhatWasCaptured(s: Start, e: PackageEntry, r: PackageEntry, legacy: string, files: Files,
                                phone: Directories, now: Directories, unpacked: set<(Root, string, Blob)>)
    requires Truthful(e, legacy, files, phone, s.m) && e.dataCaptureMethod == RunAsTar
    requires Guarded(e, files, s.files, s.m) && e.error == "" && (s.filter == [] || e.name in s.filter)
    requires TurnDone(s, e, r, now, unpacked)
    ensures r.error == "" <==>
            Sound(e, s.files, s.m) && (CredentialEncrypted, e.name) in s.dirs && s.answers.unpacksAs(e.name).Through?
    ensures r.error == "" ==> HeldByApp(now, s.dirs, phone, e.name)
  {
    hide Truthful, Restorable, Guarded, Sound, TurnOf, HeldByApp, OwnArchive;
    AppNeeds(s, e, legacy, files, phone);
    if r.error == "" { AppHolds(s, e, legacy, files, phone, now); }
  }
}
