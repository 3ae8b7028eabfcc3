/** Capturing and restoring app data as root: one archive per package and root directory. */
module RootBackend {
  import opened Wrappers
  import opened AndroidDevice
  import opened PackageNames
  import opened Manifest
  import opened PackageEntries

  // ---------------------------------------------------------------- capturing

  /** What an entry says about captured data is so. */
  predicate Truthful(e: PackageEntry, files: Files, dirs: Directories, m: Measure) {
    && (e.dataArchive != "" ==>
          e.dataArchive == CePath(e.name) &&
          Captured(files, dirs, CredentialEncrypted, e.name, e.dataArchive, e.dataArchiveSha256, m))
    && (e.deDataArchive != "" ==>
          e.deDataArchive == DePath(e.name) &&
          Captured(files, dirs, DeviceProtected, e.name, e.deDataArchive, e.deDataArchiveSha256, m))
    && (e.dataIncluded <==> e.dataArchive != "" || e.deDataArchive != "")
    && e.dataCaptureMethod == (if e.dataIncluded then RootTar else NotCaptured)
    && (e.dataIncluded ==> IsValidPackageName(e.name))
  }

  /** What becomes of capturing one tree. */
  datatype Take = Taken | NothingSeen | TakeFailed

  function TakeOf(dirs: Directories, answers: Answers, root: Root, name: string): Take {
    if (root, name) !in dirs || !answers.shows(root, name) then NothingSeen
    else
      match answers.tars(root, name)
      case Whole => Taken
      case Silent => NothingSeen
      case Broken(_) => TakeFailed
  }

  /** The phone shows a directory, so capturing it writes the local file, if only to remove it again. */
  predicate Shown(dirs: Directories, answers: Answers, root: Root, name: string) {
    (root, name) in dirs && answers.shows(root, name)
  }

  lemma TakenIsThere(dirs: Directories, answers: Answers, root: Root, name: string)
    requires TakeOf(dirs, answers, root, name) == Taken
    ensures (root, name) in dirs
  {
  }

  method CaptureTree(phone: Phone, disk: Disk, root: Root, name: string, path: string, m: Measure)
    returns (captured: bool, failed: bool)
    requires Measures(m)
    modifies disk
    ensures SameBut(disk.files, old(disk.files), {path})
    ensures captured <==> TakeOf(phone.dirs, phone.answers, root, name) == Taken
    ensures failed <==> TakeOf(phone.dirs, phone.answers, root, name) == TakeFailed
    ensures captured ==> path in disk.files && disk.files[path] == Archive(name, phone.dirs[(root, name)])
    ensures !captured ==>
              if Shown(phone.dirs, phone.answers, root, name) then path !in disk.files
              else disk.files == old(disk.files)
  {
    failed := false;
    var present := phone.Exists(root, name);
    if !present { return false, false; }
    var ok := phone.TarToFile(disk, root, name, path);
    if !ok {
      disk.Remove(path);
      return false, true;
    }
    if m.size(disk.files[path]) == 0 {
      disk.Remove(path);
      return false, false;
    }
    return true, false;
  }

  function CaptureError(ceFailed: bool, deFailed: bool): (r: string)
    ensures r != ""
  {
    "failed to capture " +
    (if ceFailed && deFailed then "app data" else if ceFailed then "app data (/data/data)"
     else "device-protected data (/data/user_de)") + " via tar"
  }

  function ArchivePath(root: Root, name: string): string {
    match root
    case CredentialEncrypted => CePath(name)
    case DeviceProtected => DePath(name)
  }

  datatype Part = Part(archive: string, length: nat, sum: string)

  /** What is recorded of one tree. */
  function PartAt(dirs: Directories, answers: Answers, root: Root, name: string, m: Measure): Part {
    if TakeOf(dirs, answers, root, name) != Taken then Part("", 0, "")
    else
      var path, blob := ArchivePath(root, name), Archive(name, dirs[(root, name)]);
      Part(path, m.size(blob), ChecksumOrEmpty(path, blob, m))
  }

  /** The entry with both parts recorded, or as much of them as there is. */
  function Recorded(e: PackageEntry, ce: Part, de: Part, ceFailed: bool, deFailed: bool): PackageEntry {
    var some := ce.archive != "" || de.archive != "";
    e.(dataIncluded := some, dataCaptureMethod := if some then RootTar else NotCaptured,
       dataArchive := ce.archive, dataArchiveBytes := ce.length, dataArchiveSha256 := ce.sum,
       deDataArchive := de.archive, deDataArchiveBytes := de.length, deDataArchiveSha256 := de.sum,
       error := if ceFailed || deFailed then CaptureError(ceFailed, deFailed) else e.error)
  }

  const INVALID_NAME := "invalid package name, skipped"

  /** The entry of a package after its turn. */
  function BackedUp(e: PackageEntry, dirs: Directories, answers: Answers, m: Measure): PackageEntry {
    if !IsValidPackageName(e.name) then e.(error := INVALID_NAME)
    else
      Recorded(e, PartAt(dirs, answers, CredentialEncrypted, e.name, m),
               PartAt(dirs, answers, DeviceProtected, e.name, m),
               TakeOf(dirs, answers, CredentialEncrypted, e.name) == TakeFailed,
               TakeOf(dirs, answers, DeviceProtected, e.name) == TakeFailed)
  }

  /** The archive an entry names for one of the two trees. */
  function ArchiveOf(e: PackageEntry, root: Root): string {
    if root.CredentialEncrypted? then e.dataArchive else e.deDataArchive
  }

  lemma DistinctPaths(name: string)
    requires IsValidPackageName(name)
    ensures CePath(name) != DePath(name) && CePath(name) != "" && DePath(name) != ""
  {
    ArchivesShareAName(name, name);
    assert |CePath(name)| > 0 && |DePath(name)| > 0;
  }

  /** An archive is recorded exactly for the trees that were captured, and an entry gets an error exactly if
      its name is not one or `tar` failed on a directory the phone showed. */
  lemma BackedUpIff(e: PackageEntry, dirs: Directories, answers: Answers, m: Measure)
    requires NoData(e)
    ensures var r := BackedUp(e, dirs, answers, m);
            && (r.error != "" <==>
                || e.error != "" || !IsValidPackageName(e.name)
                || TakeOf(dirs, answers, CredentialEncrypted, e.name) == TakeFailed
                || TakeOf(dirs, answers, DeviceProtected, e.name) == TakeFailed)
            && (forall root :: ArchiveOf(r, root) != "" <==>
                  IsValidPackageName(e.name) && TakeOf(dirs, answers, root, e.name) == Taken)
            && (forall root | ArchiveOf(r, root) != "" :: ArchiveOf(r, root) == ArchivePath(root, e.name))
            && OnlyData(e, r)
  {
    hide IsValidPackageName, CePath, DePath;
    if IsValidPackageName(e.name) { DistinctPaths(e.name); }
  }

  /** A directory the phone has but did not show, or for which `tar` wrote nothing and reported no failure. */
  predicate Unseen(dirs: Directories, answers: Answers, root: Root, name: string) {
    (root, name) in dirs && (!answers.shows(root, name) || answers.tars(root, name).Silent?)
  }

  /** An entry without an error lacks a directory of its package exactly if that directory went unseen. */
  lemma LeftOutIff(e: PackageEntry, dirs: Directories, answers: Answers, root: Root, m: Measure)
    requires NoData(e) && BackedUp(e, dirs, answers, m).error == ""
    ensures (root, e.name) in dirs && ArchiveOf(BackedUp(e, dirs, answers, m), root) == "" <==>
            Unseen(dirs, answers, root, e.name)
  {
    hide IsValidPackageName, CePath, DePath, NoData, BackedUp;
    BackedUpIff(e, dirs, answers, m);
  }

  /** If a tree was captured, the file made for it holds it. */
  predicate Holding(files: Files, dirs: Directories, answers: Answers, root: Root, name: string) {
    TakeOf(dirs, answers, root, name) == Taken ==>
      && ArchivePath(root, name) in files
      && files[ArchivePath(root, name)] == Archive(name, dirs[(root, name)])
  }

  /** What capturing a tree makes of the file for it. */
  predicate Leaves(now: Files, was: Files, dirs: Directories, answers: Answers, root: Root, name: string) {
    var path := ArchivePath(root, name);
    if !Shown(dirs, answers, root, name) then
      (path in now <==> path in was) && (path in now ==> now[path] == was[path])
    else if TakeOf(dirs, answers, root, name) == Taken then
      path in now && now[path] == Archive(name, dirs[(root, name)])
    else path !in now
  }

  /** The entry of a package after its turn tells the truth exactly if the files made for it hold its trees. */
  lemma TruthfulIffHolding(e: PackageEntry, files: Files, dirs: Directories, answers: Answers, m: Measure)
    requires NoData(e)
    ensures Truthful(BackedUp(e, dirs, answers, m), files, dirs, m) <==>
            (IsValidPackageName(e.name) ==> forall root :: Holding(files, dirs, answers, root, e.name))
  {
    hide IsValidPackageName, CePath, DePath;
    if IsValidPackageName(e.name) {
      DistinctPaths(e.name);
      if Truthful(BackedUp(e, dirs, answers, m), files, dirs, m) {
        forall root ensures Holding(files, dirs, answers, root, e.name) {
          match root
          case CredentialEncrypted =>
          case DeviceProtected =>
        }
      } else {
        assert !Holding(files, dirs, answers, CredentialEncrypted, e.name) ||
               !Holding(files, dirs, answers, DeviceProtected, e.name);
      }
    }
  }

  /** One of a package's two trees. */
  method CaptureAndMeasure(phone: Phone, disk: Disk, root: Root, name: string, m: Measure)
    returns (part: Part, failed: bool)
    requires Measures(m)
    modifies disk
    ensures SameBut(disk.files, old(disk.files), {ArchivePath(root, name)})
    ensures part == PartAt(phone.dirs, phone.answers, root, name, m)
    ensures failed <==> TakeOf(phone.dirs, phone.answers, root, name) == TakeFailed
    ensures Leaves(disk.files, old(disk.files), phone.dirs, phone.answers, root, name)
  {
    hide CePath, DePath;
    var path := ArchivePath(root, name);
    var captured;
    captured, failed := CaptureTree(phone, disk, root, name, path, m);
    part := if captured then Part(path, m.size(disk.files[path]), ChecksumOrEmpty(path, disk.files[path], m))
            else Part("", 0, "");
  }

  /** One package. */
  method BackupEntry(phone: Phone, disk: Disk, e: PackageEntry, m: Measure) returns (r: PackageEntry)
    requires Measures(m) && NoData(e)
    modifies disk
    ensures SameBut(disk.files, old(disk.files), {CePath(e.name), DePath(e.name)})
    ensures r == BackedUp(e, phone.dirs, phone.answers, m)
    ensures if IsValidPackageName(e.name)
            then forall root :: Leaves(disk.files, old(disk.files), phone.dirs, phone.answers, root, e.name)
            else disk.files == old(disk.files) && r.error == "invalid package name, skipped"
  {
    hide CePath, DePath, IsValidPackageName, Recorded, PartAt;
    if !IsValidPackageName(e.name) { return e.(error := INVALID_NAME); }
    DistinctPaths(e.name);
    ghost var was := disk.files;
    var ce, ceFailed := CaptureAndMeasure(phone, disk, CredentialEncrypted, e.name, m);
    var de, deFailed := CaptureAndMeasure(phone, disk, DeviceProtected, e.name, m);
    r := Recorded(e, ce, de, ceFailed, deFailed);
    forall root ensures Leaves(disk.files, was, phone.dirs, phone.answers, root, e.name) {
      match root
      case CredentialEncrypted =>
      case DeviceProtected =>
    }
  }

  // ---------------------------------------------------------------- archives that get overwritten

  /** The turn of `other` writes or removes the file of an archive of `name`. */
  predicate Spoils(root: Root, name: string, other: string, dirs: Directories, answers: Answers) {
    IsValidPackageName(other) &&
    match root
    case CredentialEncrypted => name == other + ".de" && Shown(dirs, answers, DeviceProtected, other)
    case DeviceProtected => other == name + ".de" && Shown(dirs, answers, CredentialEncrypted, other)
  }

  /** A package whose turn came after the n-th one's and among the first k has spoiled an archive of that. */
  predicate Overwritten(packages: seq<string>, n: nat, k: nat, names: seq<string>, root: Root, dirs: Directories,
                        answers: Answers)
    requires n < |packages|
  {
    exists j :: n < j < k && j < |packages| && packages[j] in names &&
                Spoils(root, packages[n], packages[j], dirs, answers)
  }

  /** After k turns the archives of the n-th package are what was captured. */
  predicate Kept(packages: seq<string>, n: nat, k: nat, names: seq<string>, dirs: Directories, answers: Answers)
    requires n < |packages|
  {
    IsValidPackageName(packages[n]) ==>
      forall root | TakeOf(dirs, answers, root, packages[n]) == Taken ::
        !Overwritten(packages, n, k, names, root, dirs, answers)
  }

  /** One turn: the archives of another package stay exactly if they are not spoiled. */
  lemma TurnSpoils(root: Root, name: string, other: string, was: Files, now: Files, dirs: Directories, answers: Answers)
    requires IsValidPackageName(name) && name != other && TakeOf(dirs, answers, root, name) == Taken
    requires SameBut(now, was, {CePath(other), DePath(other)})
    requires if IsValidPackageName(other) then forall root :: Leaves(now, was, dirs, answers, root, other)
             else now == was
    ensures Holding(now, dirs, answers, root, name) <==>
            Holding(was, dirs, answers, root, name) && !Spoils(root, name, other, dirs, answers)
  {
    hide CePath, DePath, IsValidPackageName;
    if IsValidPackageName(other) {
      ArchivesShareAName(name, other);
      ArchivesShareAName(other, name);
      assert Leaves(now, was, dirs, answers, CredentialEncrypted, other);
      assert Leaves(now, was, dirs, answers, DeviceProtected, other);
    }
  }

  lemma OverwrittenStep(packages: seq<string>, n: nat, k: nat, names: seq<string>, root: Root, dirs: Directories,
                        answers: Answers)
    requires n < k < |packages|
    ensures Overwritten(packages, n, k + 1, names, root, dirs, answers) <==>
            || Overwritten(packages, n, k, names, root, dirs, answers)
            || (packages[k] in names && Spoils(root, packages[n], packages[k], dirs, answers))
  {
    hide Spoils;
  }

  /** The files made for the first k packages, if captured, hold what was captured unless they were spoiled. */
  ghost predicate Accurate(packages: seq<string>, k: nat, names: seq<string>, files: Files, dirs: Directories,
                           answers: Answers) {
    forall n: nat, root | n < k && n < |packages| && packages[n] in names && IsValidPackageName(packages[n]) &&
                          TakeOf(dirs, answers, root, packages[n]) == Taken ::
      Holding(files, dirs, answers, root, packages[n]) <==> !Overwritten(packages, n, k, names, root, dirs, answers)
  }

  lemma NextAccurate(packages: seq<string>, k: nat, names: seq<string>, was: Files, now: Files, dirs: Directories,
                     answers: Answers)
    requires k < |packages| && Distinct(packages) && Accurate(packages, k, names, was, dirs, answers)
    requires packages[k] in names ==>
               && SameBut(now, was, {CePath(packages[k]), DePath(packages[k])})
               && if IsValidPackageName(packages[k])
                  then forall root :: Leaves(now, was, dirs, answers, root, packages[k])
                  else now == was
    requires packages[k] !in names ==> now == was
    ensures Accurate(packages, k + 1, names, now, dirs, answers)
  {
    hide CePath, DePath, IsValidPackageName, Holding, Overwritten, Spoils, TakeOf, Leaves;
    forall n: nat, root | n < k + 1 && packages[n] in names && IsValidPackageName(packages[n]) &&
                          TakeOf(dirs, answers, root, packages[n]) == Taken
      ensures Holding(now, dirs, answers, root, packages[n]) <==>
              !Overwritten(packages, n, k + 1, names, root, dirs, answers)
    {
      if n < k {
        assert packages[n] != packages[k];
        OverwrittenStep(packages, n, k, names, root, dirs, answers);
        if packages[k] in names { TurnSpoils(root, packages[n], packages[k], was, now, dirs, answers); }
      } else {
        JustWritten(packages, k, names, root, was, now, dirs, answers);
      }
    }
  }

  lemma JustWritten(packages: seq<string>, k: nat, names: seq<string>, root: Root, was: Files, now: Files,
                    dirs: Directories, answers: Answers)
    requires k < |packages| && TakeOf(dirs, answers, root, packages[k]) == Taken
    requires forall root :: Leaves(now, was, dirs, answers, root, packages[k])
    ensures Holding(now, dirs, answers, root, packages[k])
    ensures !Overwritten(packages, k, k + 1, names, root, dirs, answers)
  {
    hide CePath, DePath, IsValidPackageName;
    assert Leaves(now, was, dirs, answers, root, packages[k]);
  }

  /** A backup of all these packages leaves every archive as it was captured. */
  predicate NoneSpoiled(names: seq<string>, dirs: Directories, answers: Answers) {
    forall n: nat | n < |names| :: Kept(names, n, |names|, names, dirs, answers)
  }

  /** That is so without a package that is named like another plus ".de". */
  lemma NothingSpoiled(names: seq<string>, dirs: Directories, answers: Answers)
    requires NoClash(names)
    ensures NoneSpoiled(names, dirs, answers)
  {
    hide IsValidPackageName;
  }

  lemma KeptSooner(names: seq<string>, n: nat, k: nat, dirs: Directories, answers: Answers)
    requires n < |names| && k <= |names| && Kept(names, n, |names|, names, dirs, answers)
    ensures Kept(names, n, k, names, dirs, answers)
  {
    hide IsValidPackageName, Spoils;
  }

  lemma BackedUpName(e: PackageEntry, dirs: Directories, answers: Answers, m: Measure)
    ensures BackedUp(e, dirs, answers, m).name == e.name
  {
  }

  /** The whole step. Whatever adb answers and whenever the user cancels, the packages up to some point have had
      their turns, all of them unless cancelled, and what an entry says is true of the phone and the backup
      directory exactly if no later turn has spoiled its archives. */
  method BackupAppData(phone: Phone, disk: Disk, control: Control, packages: seq<string>, entries: seq<PackageEntry>,
                       m: Measure)
    returns (r: seq<PackageEntry>, ghost done: nat)
    requires Measures(m) && Distinct(Names(entries)) && Distinct(packages)
    requires forall i | 0 <= i < |entries| :: NoData(entries[i])
    modifies disk, control
    ensures |r| == |entries| && done <= |packages| && (!control.cancelled ==> done == |packages|)
    ensures forall i | 0 <= i < |r| && entries[i].name !in packages[..done] ::
              r[i] == entries[i] && Truthful(r[i], disk.files, phone.dirs, m)
    ensures forall i | 0 <= i < |r| && entries[i].name in packages[..done] ::
              r[i] == BackedUp(entries[i], phone.dirs, phone.answers, m)
    ensures forall i, n: nat | 0 <= i < |r| && n < done && entries[i].name == packages[n] ::
              Truthful(r[i], disk.files, phone.dirs, m) <==>
              Kept(packages, n, done, Names(entries), phone.dirs, phone.answers)
    ensures OnlyArchives(disk.files, old(disk.files))
    ensures control.Later()
  {
    hide Truthful, NoData, CePath, DePath, IsValidPackageName, BackedUp, SameBut, OnlyArchives, Leaves, Accurate, Kept,
         Names, Distinct;
    r, done := entries, 0;
    ghost var names := Names(entries);
    NoneWritten(disk.files, packages, names, phone.dirs, phone.answers);
    for k := 0 to |packages|
      invariant |r| == |entries| && done == k
      invariant forall i | 0 <= i < |r| && entries[i].name !in packages[..k] :: r[i] == entries[i]
      invariant forall i | 0 <= i < |r| && entries[i].name in packages[..k] ::
                  r[i] == BackedUp(entries[i], phone.dirs, phone.answers, m)
      invariant Accurate(packages, k, names, disk.files, phone.dirs, phone.answers)
      invariant OnlyArchives(disk.files, old(disk.files))
      invariant control.Later()
    {
      var stop := control.Requested();
      if stop { break; }
      ghost var was := disk.files;
      assert packages[..k + 1] == packages[..k] + [packages[k]];
      NamesKept(entries, r, packages[..k], phone.dirs, phone.answers, m);
      FirstTurn(packages, k);
      var found := Find(r, packages[k]);
      if found.Some? {
        var i := found.value;
        OnlyEntry(entries, i);
        var e := BackupEntry(phone, disk, r[i], m);
        r := r[i := e];
        TwoWritten(old(disk.files), was, disk.files, packages[k]);
      } else {
        NoEntry(entries, packages[k]);
      }
      NextAccurate(packages, k, names, was, disk.files, phone.dirs, phone.answers);
      done := k + 1;
    }
    TruthIs(entries, r, packages, done, disk.files, phone.dirs, phone.answers, m);
  }

  lemma FirstTurn(packages: seq<string>, k: nat)
    requires k < |packages| && Distinct(packages)
    ensures packages[k] !in packages[..k]
  {
  }

  lemma OnlyEntry(entries: seq<PackageEntry>, i: nat)
    requires i < |entries| && Distinct(Names(entries))
    ensures entries[i].name in Names(entries)
    ensures forall j | 0 <= j < |entries| && j != i :: entries[j].name != entries[i].name
  {
    var names := Names(entries);
    assert names[i] in names;
    forall j | 0 <= j < |entries| && j != i ensures entries[j].name != entries[i].name {
      assert names[j] != names[i] by { if i < j { } else { } }
    }
  }

  lemma NoEntry(entries: seq<PackageEntry>, name: string)
    requires forall j | 0 <= j < |entries| :: entries[j].name != name
    ensures name !in Names(entries)
  {
  }

  /** What the entries say after the turns of the first packages. */
  lemma TruthIs(entries: seq<PackageEntry>, r: seq<PackageEntry>, packages: seq<string>, done: nat, files: Files,
                dirs: Directories, answers: Answers, m: Measure)
    requires |r| == |entries| && done <= |packages| && Distinct(Names(entries))
    requires forall i | 0 <= i < |entries| :: NoData(entries[i])
    requires forall i | 0 <= i < |r| && entries[i].name !in packages[..done] :: r[i] == entries[i]
    requires forall i | 0 <= i < |r| && entries[i].name in packages[..done] ::
               r[i] == BackedUp(entries[i], dirs, answers, m)
    requires Accurate(packages, done, Names(entries), files, dirs, answers)
    ensures forall i | 0 <= i < |r| && entries[i].name !in packages[..done] :: Truthful(r[i], files, dirs, m)
    ensures forall i, n: nat | 0 <= i < |r| && n < done && entries[i].name == packages[n] ::
              Truthful(r[i], files, dirs, m) <==> Kept(packages, n, done, Names(entries), dirs, answers)
  {
    hide Truthful, NoData, IsValidPackageName, BackedUp, Accurate, Kept, Names, Distinct;
    forall i | 0 <= i < |r| && entries[i].name !in packages[..done] ensures Truthful(r[i], files, dirs, m) {
      Unrecorded(entries[i], files, dirs, m);
    }
    forall i, n: nat | 0 <= i < |r| && n < done && entries[i].name == packages[n]
      ensures Truthful(r[i], files, dirs, m) <==> Kept(packages, n, done, Names(entries), dirs, answers)
    {
      assert entries[i].name in packages[..done] by { assert packages[..done][n] == packages[n]; }
      TruthfulIffHolding(entries[i], files, dirs, answers, m);
      OnlyEntry(entries, i);
      HoldingIffKept(packages, n, done, Names(entries), files, dirs, answers);
    }
  }

  lemma HoldingIffKept(packages: seq<string>, n: nat, done: nat, names: seq<string>, files: Files, dirs: Directories,
                       answers: Answers)
    requires Accurate(packages, done, names, files, dirs, answers)
    requires n < done <= |packages| && packages[n] in names
    ensures Kept(packages, n, done, names, dirs, answers) <==>
            (IsValidPackageName(packages[n]) ==> forall root :: Holding(files, dirs, answers, root, packages[n]))
  {
    hide IsValidPackageName, Overwritten, ArchivePath;
  }

  lemma Unrecorded(e: PackageEntry, files: Files, dirs: Directories, m: Measure)
    requires NoData(e)
    ensures Truthful(e, files, dirs, m)
  {
  }

  lemma NamesKept(entries: seq<PackageEntry>, r: seq<PackageEntry>, done: seq<string>, dirs: Directories,
                  answers: Answers, m: Measure)
    requires |r| == |entries|
    requires forall i | 0 <= i < |r| && entries[i].name !in done :: r[i] == entries[i]
    requires forall i | 0 <= i < |r| && entries[i].name in done :: r[i] == BackedUp(entries[i], dirs, answers, m)
    ensures forall i | 0 <= i < |r| :: r[i].name == entries[i].name
    ensures Names(r) == Names(entries)
  {
    hide BackedUp;
    forall i | 0 <= i < |r| ensures r[i].name == entries[i].name {
      BackedUpName(entries[i], dirs, answers, m);
    }
    assert Names(r) == Names(entries);
  }

  lemma NoneWritten(files: Files, packages: seq<string>, names: seq<string>, dirs: Directories, answers: Answers)
    ensures OnlyArchives(files, files) && Accurate(packages, 0, names, files, dirs, answers)
  {
  }

  lemma TwoWritten(start: Files, was: Files, now: Files, name: string)
    requires OnlyArchives(was, start) && SameBut(now, was, {CePath(name), DePath(name)})
    ensures OnlyArchives(now, start)
  {
    ArchivesInData(name);
    hide CePath, DePath;
  }

  // ---------------------------------------------------------------- restoring

  datatype Failure = Done | Missing | ExtractFailed

  /** A directory after an archive was unpacked over it and everything in it was given to its owner, except
      for what `chown` missed. */
  function Restored(was: Directory, from: Directory, missed: set<string>): Directory {
    Chowned(Unpacked(was, from), was.owner, missed)
  }

  /** Everything the archive holds is there with its contents, and what the archive does not hold is as it was. */
  lemma RestoredContents(was: Directory, from: Directory, missed: set<string>)
    ensures var now := Restored(was, from, missed);
            && now.files.Keys == was.files.Keys + from.files.Keys
            && (forall path | path in from.files :: now.files[path].content == from.files[path].content)
            && (forall path | path in was.files && path !in from.files ::
                  now.files[path].content == was.files[path].content)
  {
  }

  /** The directory and all it holds belong to the app's own user exactly if `chown`, whose result the
      program does not look at, missed nothing that belonged to somebody else. */
  lemma RestoredOwners(was: Directory, from: Directory, missed: set<string>)
    ensures var now := Restored(was, from, missed);
            (now.owner == was.owner && forall path | path in now.files :: now.files[path].owner == was.owner)
            <==>
            (ITSELF in missed ==> from.owner == was.owner) &&
            (forall path | path in missed && path in from.files :: from.files[path].owner == was.owner) &&
            (forall path | path in missed && path in was.files && path !in from.files ::
               was.files[path].owner == was.owner)
  {
    var now := Restored(was, from, missed);
    var both := Unpacked(was, from);
    forall path | path in both.files
      ensures path in now.files && (now.files[path].owner == was.owner <==>
                                      path !in missed || both.files[path].owner == was.owner)
    {
    }
    if now.owner == was.owner && forall path | path in now.files :: now.files[path].owner == was.owner {
      forall path | path in missed && path in from.files ensures from.files[path].owner == was.owner {
        assert path in both.files;
      }
      forall path | path in missed && path in was.files && path !in from.files
        ensures was.files[path].owner == was.owner
      {
        assert path in both.files;
      }
    }
  }

  /** What becomes of writing one tree back. */
  function Fate(keys: set<(Root, string)>, answers: Answers, root: Root, name: string, blob: Blob): Failure {
    if (root, name) !in keys || !answers.tells(root, name) then Missing
    else if !blob.Archive? || answers.unpacks(root, blob.name).Stopped? then ExtractFailed
    else Done
  }

  function TreeAfter(dirs: Directories, answers: Answers, root: Root, name: string, blob: Blob): Directories {
    if !blob.Archive? || Fate(dirs.Keys, answers, root, name, blob) == Missing then dirs
    else
      var unpacked := AfterUnpack(dirs, root, blob, answers.unpacks(root, blob.name));
      if Fate(dirs.Keys, answers, root, name, blob) == ExtractFailed then unpacked
      else
        unpacked[(root, name) :=
          Chowned(unpacked[(root, name)], dirs[(root, name)].owner, answers.misses(root, name))]
  }

  method RestoreTree(phone: Phone, root: Root, name: string, blob: Blob) returns (failure: Failure)
    modifies phone`dirs, phone`unpacked
    ensures failure == Fate(old(phone.dirs).Keys, phone.answers, root, name, blob)
    ensures phone.dirs == TreeAfter(old(phone.dirs), phone.answers, root, name, blob)
    ensures failure == Done ==> phone.unpacked == old(phone.unpacked) + {(root, blob.name, blob)}
    ensures failure != Done ==> phone.unpacked == old(phone.unpacked)
  {
    hide Chowned, Unpacked, PartOf;
    var owner := phone.Owner(root, name);
    if owner.None? { return Missing; }
    var ok := phone.Unpack(root, blob);
    if !ok { return ExtractFailed; }
    phone.Chown(root, name, owner.value);
    return Done;
  }

  /** A tree whose own archive is written back is restored, and nothing else changes. */
  lemma TreeRestored(dirs: Directories, answers: Answers, root: Root, name: string, blob: Blob)
    requires blob.Archive? ==> blob.name == name
    ensures var now := TreeAfter(dirs, answers, root, name, blob);
            && now.Keys == dirs.Keys && SameBut(now, dirs, {(root, name)})
            && (Fate(dirs.Keys, answers, root, name, blob) == Missing ==> now == dirs)
            && (Fate(dirs.Keys, answers, root, name, blob) == Done ==>
                  now == dirs[(root, name) := Restored(dirs[(root, name)], blob.directory, answers.misses(root, name))])
  {
    hide Chowned, Unpacked, PartOf;
  }

  /** The name is one, and every archive the entry names is there and passes the check of its digest. */
  predicate Sound(e: PackageEntry, files: Files, m: Measure) {
    && IsValidPackageName(e.name)
    && (e.dataArchive != "" ==> Verifies(files, e.dataArchive, e.dataArchiveSha256, m))
    && (e.deDataArchive != "" ==> Verifies(files, e.deDataArchive, e.deDataArchiveSha256, m))
  }

  predicate Verifies(files: Files, path: string, sum: string, m: Measure) {
    path in files && ChecksumMatches(path, files[path], sum, m)
  }

  /** An archive that passes the check is one of the entry's own package. */
  predicate OwnArchives(e: PackageEntry, files: Files, m: Measure) {
    Sound(e, files, m) ==>
      && (e.dataArchive != "" && files[e.dataArchive].Archive? ==> files[e.dataArchive].name == e.name)
      && (e.deDataArchive != "" && files[e.deDataArchive].Archive? ==> files[e.deDataArchive].name == e.name)
  }

  const NOT_INSTALLED :=
    "app is not installed on the device, so its data cannot be restored (restore its APK too, or install it first)"

  method VerifyArchives(disk: Disk, e: PackageEntry, m: Measure) returns (error: string)
    requires IsValidPackageName(e.name)
    ensures error == "" <==> Sound(e, disk.files, m)
  {
    if e.dataArchive != "" {
      if e.dataArchive !in disk.files { return "data archive missing on disk: " + e.dataArchive; }
      if !ChecksumMatches(e.dataArchive, disk.files[e.dataArchive], e.dataArchiveSha256, m) {
        return "checksum mismatch for " + e.dataArchive + ", refusing to restore";
      }
    }
    if e.deDataArchive != "" {
      if e.deDataArchive !in disk.files { return "data archive missing on disk: " + e.deDataArchive; }
      if !ChecksumMatches(e.deDataArchive, disk.files[e.deDataArchive], e.deDataArchiveSha256, m) {
        return "checksum mismatch for " + e.deDataArchive + ", refusing to restore";
      }
    }
    return "";
  }

  /** Writing back works for a tree: there is no archive for it, or its directory is on the phone, adb tells the
      directory's owner, and the archive is unpacked to the end. */
  predicate Lands(e: PackageEntry, root: Root, files: Files, keys: set<(Root, string)>, answers: Answers) {
    ArchiveOf(e, root) == "" ||
    (ArchiveOf(e, root) in files && Fate(keys, answers, root, e.name, files[ArchiveOf(e, root)]) == Done)
  }

  /** What an entry needs for its data to come back without an error. */
  predicate Restorable(e: PackageEntry, files: Files, keys: set<(Root, string)>, answers: Answers, m: Measure) {
    Sound(e, files, m) && Lands(e, CredentialEncrypted, files, keys, answers) &&
    Lands(e, DeviceProtected, files, keys, answers)
  }

  /** The phone after one of an entry's trees. */
  function PartAfter(e: PackageEntry, root: Root, files: Files, dirs: Directories, answers: Answers): Directories
    requires ArchiveOf(e, root) != "" ==> ArchiveOf(e, root) in files
  {
    if ArchiveOf(e, root) == "" then dirs else TreeAfter(dirs, answers, root, e.name, files[ArchiveOf(e, root)])
  }

  /** The phone after an entry's turn: nothing is touched unless every archive holds up, and the second tree is
      written only once the first is. */
  function EntryAfter(e: PackageEntry, files: Files, dirs: Directories, answers: Answers, m: Measure): Directories {
    if !Sound(e, files, m) then dirs
    else
      var ce := PartAfter(e, CredentialEncrypted, files, dirs, answers);
      if Lands(e, CredentialEncrypted, files, dirs.Keys, answers) then PartAfter(e, DeviceProtected, files, ce, answers)
      else ce
  }

  /** What an entry's error says about one of its trees. */
  function TreeError(e: PackageEntry, root: Root, failure: Failure): (error: string)
    ensures error == "" <==> failure == Done
  {
    match failure
    case Done => ""
    case Missing =>
      if root.CredentialEncrypted? || e.dataArchive == "" then NOT_INSTALLED
      else "device-protected data not restored: /data/user_de/0/" + e.name + " does not exist on the device"
    case ExtractFailed =>
      if root.CredentialEncrypted? then "failed to extract app data archive on device"
      else "failed to extract device-protected data archive on device"
  }

  /** The phone has unpacked one of an entry's archives to the end. */
  ghost predicate UnpackedFrom(e: PackageEntry, root: Root, files: Files, unpacked: set<(Root, string, Blob)>) {
    && ArchiveOf(e, root) in files && files[ArchiveOf(e, root)].Archive?
    && (root, files[ArchiveOf(e, root)].name, files[ArchiveOf(e, root)]) in unpacked
  }

  /** One tree of a package, if there is an archive for it. */
  method RestorePart(phone: Phone, disk: Disk, e: PackageEntry, root: Root) returns (failure: Failure)
    requires ArchiveOf(e, root) != "" ==> ArchiveOf(e, root) in disk.files
    modifies phone`dirs, phone`unpacked
    ensures failure == Done <==> Lands(e, root, disk.files, old(phone.dirs).Keys, phone.answers)
    ensures phone.dirs == PartAfter(e, root, disk.files, old(phone.dirs), phone.answers)
    ensures old(phone.unpacked) <= phone.unpacked
    ensures failure == Done && ArchiveOf(e, root) != "" ==> UnpackedFrom(e, root, disk.files, phone.unpacked)
  {
    hide TreeAfter;
    if ArchiveOf(e, root) == "" { return Done; }
    failure := RestoreTree(phone, root, e.name, disk.files[ArchiveOf(e, root)]);
  }

  /** Writing back the first tree makes no difference to whether the second one can be. */
  lemma CeLeavesDe(e: PackageEntry, files: Files, dirs: Directories, answers: Answers)
    requires e.dataArchive != "" ==> e.dataArchive in files
    ensures var ce := PartAfter(e, CredentialEncrypted, files, dirs, answers);
            Lands(e, DeviceProtected, files, ce.Keys, answers) <==>
            Lands(e, DeviceProtected, files, dirs.Keys, answers)
  {
    hide Chowned, Unpacked, PartOf;
    var ce := PartAfter(e, CredentialEncrypted, files, dirs, answers);
    assert (DeviceProtected, e.name) in ce <==> (DeviceProtected, e.name) in dirs;
  }

  /** One package: verified as a whole before the device is touched, then tree by tree. */
  method RestoreEntry(phone: Phone, disk: Disk, e: PackageEntry, m: Measure) returns (error: string)
    modifies phone`dirs, phone`unpacked
    ensures error == "" <==> Restorable(e, disk.files, old(phone.dirs).Keys, phone.answers, m)
    ensures phone.dirs == EntryAfter(e, disk.files, old(phone.dirs), phone.answers, m)
    ensures old(phone.unpacked) <= phone.unpacked
    ensures error == "" ==> forall root | ArchiveOf(e, root) != "" ::
              UnpackedFrom(e, root, disk.files, phone.unpacked)
  {
    hide IsValidPackageName, PartAfter, ChecksumMatches, Lands, TreeError;
    if !IsValidPackageName(e.name) { return "invalid package name, skipped restore"; }
    error := VerifyArchives(disk, e, m);
    if error != "" { return; }
    CeLeavesDe(e, disk.files, phone.dirs, phone.answers);
    var failure := RestorePart(phone, disk, e, CredentialEncrypted);
    error := TreeError(e, CredentialEncrypted, failure);
    if failure != Done { return; }
    failure := RestorePart(phone, disk, e, DeviceProtected);
    error := TreeError(e, DeviceProtected, failure);
  }

  predicate Wanted(e: PackageEntry, filter: seq<string>) {
    e.dataIncluded && (e.dataArchive != "" || e.deDataArchive != "") && (filter == [] || e.name in filter)
  }

  /** The phone's directories of a package after its entry's turn: as they were unless it was asked for. */
  function TurnOf(s: Start, e: PackageEntry): Directories {
    if Wanted(e, s.filter) then EntryAfter(e, s.files, s.dirs, s.answers, s.m) else s.dirs
  }

  predicate Placed(s: Start, e: PackageEntry, now: Directories) {
    SameAt(now, TurnOf(s, e), CredentialEncrypted, e.name) && SameAt(now, TurnOf(s, e), DeviceProtected, e.name)
  }

  /** An entry whose turn is over has an error exactly if it had one before, or it was asked for and something it
      needs was not there; its directories are what its turn makes of them. */
  ghost predicate TurnDone(s: Start, e: PackageEntry, r: PackageEntry, now: Directories,
                           unpacked: set<(Root, string, Blob)>) {
    && r == e.(error := r.error) && (!Wanted(e, s.filter) ==> r == e)
    && (r.error == "" <==>
        e.error == "" && (Wanted(e, s.filter) ==> Restorable(e, s.files, s.dirs.Keys, s.answers, s.m)))
    && Placed(s, e, now)
    && (r.error == "" && Wanted(e, s.filter) ==> forall root | ArchiveOf(e, root) != "" ::
          ArchiveOf(e, root) in s.files && (root, e.name, s.files[ArchiveOf(e, root)]) in unpacked)
  }

  lemma TreeLocal(mid: Directories, was: Directories, answers: Answers, root: Root, name: string, blob: Blob)
    requires mid.Keys == was.Keys && SameAt(mid, was, root, name) && (blob.Archive? ==> blob.name == name)
    ensures SameAt(TreeAfter(mid, answers, root, name, blob), TreeAfter(was, answers, root, name, blob), root, name)
  {
    hide Chowned, Unpacked, PartOf;
  }

  lemma PartLocal(e: PackageEntry, root: Root, files: Files, mid: Directories, was: Directories, answers: Answers)
    requires ArchiveOf(e, root) != "" ==>
               ArchiveOf(e, root) in files &&
               (files[ArchiveOf(e, root)].Archive? ==> files[ArchiveOf(e, root)].name == e.name)
    requires mid.Keys == was.Keys && SameAt(mid, was, root, e.name)
    ensures var now := PartAfter(e, root, files, mid, answers);
            && now.Keys == mid.Keys && SameBut(now, mid, {(root, e.name)})
            && SameAt(now, PartAfter(e, root, files, was, answers), root, e.name)
  {
    hide TreeAfter, Fate;
    if ArchiveOf(e, root) != "" {
      TreeRestored(mid, answers, root, e.name, files[ArchiveOf(e, root)]);
      TreeLocal(mid, was, answers, root, e.name, files[ArchiveOf(e, root)]);
    }
  }

  /** A turn changes the package's own directories only, and what it makes of them depends on nothing else. */
  lemma EntryLocal(e: PackageEntry, files: Files, mid: Directories, was: Directories, answers: Answers, m: Measure)
    requires OwnArchives(e, files, m) && mid.Keys == was.Keys
    requires SameAt(mid, was, CredentialEncrypted, e.name) && SameAt(mid, was, DeviceProtected, e.name)
    ensures var now := EntryAfter(e, files, mid, answers, m);
            && now.Keys == mid.Keys
            && SameBut(now, mid, {(CredentialEncrypted, e.name), (DeviceProtected, e.name)})
            && SameAt(now, EntryAfter(e, files, was, answers, m), CredentialEncrypted, e.name)
            && SameAt(now, EntryAfter(e, files, was, answers, m), DeviceProtected, e.name)
  {
    hide PartAfter, IsValidPackageName, ChecksumMatches, Lands;
    if Sound(e, files, m) {
      var ce := PartAfter(e, CredentialEncrypted, files, mid, answers);
      var ceWas := PartAfter(e, CredentialEncrypted, files, was, answers);
      PartLocal(e, CredentialEncrypted, files, mid, was, answers);
      PartLocal(e, CredentialEncrypted, files, was, was, answers);
      PartLocal(e, DeviceProtected, files, ce, ceWas, answers);
      PartLocal(e, DeviceProtected, files, ceWas, ceWas, answers);
    }
  }

  /** What the loop over the entries has achieved after i of them. */
  ghost predicate SoFar(s: Start, entries: seq<PackageEntry>, r: seq<PackageEntry>, i: nat, now: Directories,
                        unpacked: set<(Root, string, Blob)>) {
    && i <= |entries| == |r|
    && now.Keys == s.dirs.Keys
    && (forall j | 0 <= j < i :: TurnDone(s, entries[j], r[j], now, unpacked))
    && (forall j | i <= j < |r| :: r[j] == entries[j])
    && (forall root, name | name !in Names(entries)[..i] :: SameAt(now, s.dirs, root, name))
  }

  lemma NothingYet(s: Start, entries: seq<PackageEntry>, unpacked: set<(Root, string, Blob)>)
    ensures SoFar(s, entries, entries, 0, s.dirs, unpacked)
  {
  }

  /** What is settled for a package stays while another one has its turn. */
  lemma OtherKept(s: Start, e: PackageEntry, r: PackageEntry, name: string, mid: Directories, now: Directories,
                  unpacked: set<(Root, string, Blob)>, more: set<(Root, string, Blob)>)
    requires TurnDone(s, e, r, mid, unpacked) && unpacked <= more && e.name != name
    requires SameBut(now, mid, {(CredentialEncrypted, name), (DeviceProtected, name)})
    ensures TurnDone(s, e, r, now, more)
  {
    hide TurnOf, Restorable, Wanted;
  }

  lemma ThisTurn(s: Start, e: PackageEntry, r: PackageEntry, mid: Directories, unpacked: set<(Root, string, Blob)>)
    requires Wanted(e, s.filter) && OwnArchives(e, s.files, s.m) && mid.Keys == s.dirs.Keys
    requires SameAt(mid, s.dirs, CredentialEncrypted, e.name) && SameAt(mid, s.dirs, DeviceProtected, e.name)
    requires r == e.(error := r.error)
    requires r.error == "" <==> e.error == "" && Restorable(e, s.files, s.dirs.Keys, s.answers, s.m)
    requires r.error == "" ==> forall root | ArchiveOf(e, root) != "" ::
               ArchiveOf(e, root) in s.files && (root, e.name, s.files[ArchiveOf(e, root)]) in unpacked
    ensures var now := EntryAfter(e, s.files, mid, s.answers, s.m);
            && TurnDone(s, e, r, now, unpacked) && now.Keys == s.dirs.Keys
            && SameBut(now, mid, {(CredentialEncrypted, e.name), (DeviceProtected, e.name)})
  {
    hide EntryAfter, Restorable, Wanted, OwnArchives, ArchiveOf;
    EntryLocal(e, s.files, mid, s.dirs, s.answers, s.m);
  }

  lemma StaysPut(s: Start, e: PackageEntry, now: Directories, unpacked: set<(Root, string, Blob)>)
    requires !Wanted(e, s.filter)
    requires SameAt(now, s.dirs, CredentialEncrypted, e.name) && SameAt(now, s.dirs, DeviceProtected, e.name)
    ensures TurnDone(s, e, e, now, unpacked)
  {
  }

  lemma Advances(s: Start, entries: seq<PackageEntry>, r: seq<PackageEntry>, after: seq<PackageEntry>, i: nat,
                 mid: Directories, now: Directories, unpacked: set<(Root, string, Blob)>,
                 more: set<(Root, string, Blob)>)
    requires Distinct(Names(entries)) && i < |entries| == |r| == |after| && unpacked <= more
    requires SoFar(s, entries, r, i, mid, unpacked)
    requires after == r[i := after[i]] && TurnDone(s, entries[i], after[i], now, more) && now.Keys == s.dirs.Keys
    requires SameBut(now, mid, {(CredentialEncrypted, entries[i].name), (DeviceProtected, entries[i].name)})
    ensures SoFar(s, entries, after, i + 1, now, more)
  {
    hide TurnDone;
    var names := Names(entries);
    assert names[..i + 1] == names[..i] + [names[i]];
    forall j | 0 <= j < i ensures TurnDone(s, entries[j], after[j], now, more) {
      assert names[j] != names[i];
      OtherKept(s, entries[j], r[j], names[i], mid, now, unpacked, more);
    }
    forall root, name | name !in names[..i + 1] ensures SameAt(now, s.dirs, root, name) {
      assert SameAt(mid, s.dirs, root, name);
    }
  }

  lemma AsBefore(s: Start, entries: seq<PackageEntry>, r: seq<PackageEntry>, i: nat, now: Directories,
                 unpacked: set<(Root, string, Blob)>)
    requires Distinct(Names(entries)) && i < |entries| && SoFar(s, entries, r, i, now, unpacked)
    ensures |r| == |entries| && r[i] == entries[i] && now.Keys == s.dirs.Keys
    ensures SameAt(now, s.dirs, CredentialEncrypted, entries[i].name)
    ensures SameAt(now, s.dirs, DeviceProtected, entries[i].name)
  {
    hide TurnDone, SameAt;
    assert Names(entries)[i] !in Names(entries)[..i];
  }

  /** The entries whose turn did not come, and packages without an entry, are as they were. */
  lemma SoFarMeans(s: Start, entries: seq<PackageEntry>, r: seq<PackageEntry>, i: nat, now: Directories,
                   unpacked: set<(Root, string, Blob)>)
    requires Distinct(Names(entries)) && SoFar(s, entries, r, i, now, unpacked)
    ensures i <= |entries| == |r| && now.Keys == s.dirs.Keys
    ensures forall j | 0 <= j < i :: TurnDone(s, entries[j], r[j], now, unpacked)
    ensures forall j | i <= j < |r| :: r[j] == entries[j]
    ensures forall j, root | i <= j < |r| :: SameAt(now, s.dirs, root, entries[j].name)
    ensures forall root, name | name !in Names(entries) :: SameAt(now, s.dirs, root, name)
  {
    hide TurnDone, SameAt;
    var names := Names(entries);
    forall j, root | i <= j < |r| ensures SameAt(now, s.dirs, root, entries[j].name) {
      assert names[j] !in names[..i];
    }
  }

  /** The phone after the turns of the first entries, one after the other. */
  function AfterTurns(s: Start, entries: seq<PackageEntry>, i: nat): Directories
    requires i <= |entries|
  {
    if i == 0 then s.dirs
    else
      var mid := AfterTurns(s, entries, i - 1);
      if Wanted(entries[i - 1], s.filter) then EntryAfter(entries[i - 1], s.files, mid, s.answers, s.m) else mid
  }

  /** What the turn of an entry makes of it, given the phone its predecessors left. */
  ghost predicate TurnTaken(s: Start, entries: seq<PackageEntry>, i: nat, r: PackageEntry,
                            unpacked: set<(Root, string, Blob)>)
    requires i < |entries|
  {
    var e := entries[i];
    && r == e.(error := r.error) && (!Wanted(e, s.filter) ==> r == e)
    && (r.error == "" <==>
        && e.error == ""
        && (Wanted(e, s.filter) ==> Restorable(e, s.files, AfterTurns(s, entries, i).Keys, s.answers, s.m)))
    && (r.error == "" && Wanted(e, s.filter) ==> forall root | ArchiveOf(e, root) != "" ::
          UnpackedFrom(e, root, s.files, unpacked))
  }

  lemma NothingElse(dirs: Directories, name: string)
    ensures SameBut(dirs, dirs, {(CredentialEncrypted, name), (DeviceProtected, name)})
  {
  }

  /** What was unpacked for an entry were archives of its own package. */
  lemma OwnUnpacked(s: Start, e: PackageEntry, unpacked: set<(Root, string, Blob)>, mid: Directories)
    requires OwnArchives(e, s.files, s.m) && Restorable(e, s.files, mid.Keys, s.answers, s.m)
    requires forall root | ArchiveOf(e, root) != "" :: UnpackedFrom(e, root, s.files, unpacked)
    ensures forall root | ArchiveOf(e, root) != "" ::
              ArchiveOf(e, root) in s.files && (root, e.name, s.files[ArchiveOf(e, root)]) in unpacked
  {
    hide IsValidPackageName, ChecksumMatches, Lands;
    forall root | ArchiveOf(e, root) != ""
      ensures ArchiveOf(e, root) in s.files && (root, e.name, s.files[ArchiveOf(e, root)]) in unpacked
    {
      assert UnpackedFrom(e, root, s.files, unpacked);
    }
  }

  lemma StillTaken(s: Start, entries: seq<PackageEntry>, r: seq<PackageEntry>, i: nat,
                   seen: set<(Root, string, Blob)>, more: set<(Root, string, Blob)>)
    requires i <= |entries| == |r| && seen <= more
    requires forall j: nat | j < i :: TurnTaken(s, entries, j, r[j], seen)
    ensures forall j: nat | j < i :: TurnTaken(s, entries, j, r[j], more)
  {
    hide Restorable, Wanted, AfterTurns, ArchiveOf;
    forall j: nat | j < i ensures TurnTaken(s, entries, j, r[j], more) {
      assert TurnTaken(s, entries, j, r[j], seen);
    }
  }

  lemma NoTurnYet(s: Start, entries: seq<PackageEntry>)
    ensures AfterTurns(s, entries, 0) == s.dirs
  {
  }

  lemma TakesTurn(s: Start, entries: seq<PackageEntry>, i: nat, error: string, now: Directories,
                  unpacked: set<(Root, string, Blob)>)
    requires i < |entries|
    requires var e, mid := entries[i], AfterTurns(s, entries, i);
             if Wanted(e, s.filter)
             then && (error == "" <==> Restorable(e, s.files, mid.Keys, s.answers, s.m))
                  && now == EntryAfter(e, s.files, mid, s.answers, s.m)
                  && (error == "" ==> forall root | ArchiveOf(e, root) != "" ::
                        UnpackedFrom(e, root, s.files, unpacked))
             else error == "" && now == mid
    ensures now == AfterTurns(s, entries, i + 1)
    ensures var e := entries[i];
            TurnTaken(s, entries, i, if error != "" then e.(error := error) else e, unpacked)
  {
    hide Restorable, EntryAfter, Wanted, UnpackedFrom, ArchiveOf;
  }

  /** Where every archive that passes its check is one of its own package, the turns do not touch one another. */
  lemma {:induction false} TurnsApart(s: Start, entries: seq<PackageEntry>, r: seq<PackageEntry>, i: nat,
                                      unpacked: set<(Root, string, Blob)>)
    requires Distinct(Names(entries)) && i <= |entries| == |r|
    requires forall j | 0 <= j < |entries| :: OwnArchives(entries[j], s.files, s.m)
    requires forall j: nat | j < i :: TurnTaken(s, entries, j, r[j], unpacked)
    requires forall j | i <= j < |r| :: r[j] == entries[j]
    ensures SoFar(s, entries, r, i, AfterTurns(s, entries, i), unpacked)
    decreases i
  {
    hide TurnDone, OwnArchives, SameAt, SameBut, Restorable, EntryAfter, Wanted, Names, SoFar, UnpackedFrom, ArchiveOf;
    if i == 0 {
      assert r == entries;
      NothingYet(s, entries, unpacked);
    } else {
      var e, k := entries[i - 1], i - 1;
      var before := r[k := e];
      var mid := AfterTurns(s, entries, k);
      TurnsApart(s, entries, before, k, unpacked);
      AsBefore(s, entries, before, k, mid, unpacked);
      assert r == before[k := r[k]];
      if Wanted(e, s.filter) {
        if r[k].error == "" { OwnUnpacked(s, e, unpacked, mid); }
        ThisTurn(s, e, r[k], mid, unpacked);
      } else {
        StaysPut(s, e, mid, unpacked);
        NothingElse(mid, e.name);
      }
      Advances(s, entries, before, r, k, mid, AfterTurns(s, entries, i), unpacked, unpacked);
    }
  }

  /** The whole step. The entries have their turns in order, up to the one at which the user cancels, if he does;
      a turn leaves an error exactly if something the package needs is not there. Archives that pass their check
      and are ones of their own packages are written back to those packages and nowhere else. */
  method RestoreAppData(phone: Phone, disk: Disk, control: Control, entries: seq<PackageEntry>, filter: seq<string>,
                        m: Measure)
    returns (r: seq<PackageEntry>, ghost done: nat)
    requires Distinct(Names(entries))
    modifies phone`dirs, phone`unpacked, control
    ensures done <= |entries| == |r| && (!control.cancelled ==> done == |entries|)
    ensures var s := Start(filter, disk.files, old(phone.dirs), phone.answers, m);
            && phone.dirs == AfterTurns(s, entries, done)
            && (forall i: nat | i < done :: TurnTaken(s, entries, i, r[i], phone.unpacked))
            && ((forall i | 0 <= i < |entries| :: OwnArchives(entries[i], disk.files, m)) ==>
                  && (forall i | 0 <= i < done :: TurnDone(s, entries[i], r[i], phone.dirs, phone.unpacked))
                  && (forall i, root | done <= i < |r| :: SameAt(phone.dirs, s.dirs, root, entries[i].name))
                  && (forall root, name | name !in Names(entries) :: SameAt(phone.dirs, s.dirs, root, name))
                  && phone.dirs.Keys == s.dirs.Keys)
    ensures forall i | done <= i < |r| :: r[i] == entries[i]
    ensures old(phone.unpacked) <= phone.unpacked
    ensures control.Later()
  {
    hide TurnDone, OwnArchives, SameAt, SameBut, Restorable, EntryAfter, Wanted, Names, SoFar, UnpackedFrom, Distinct,
         ArchiveOf, TurnTaken, AfterTurns;
    r := entries;
    ghost var s := Start(filter, disk.files, phone.dirs, phone.answers, m);
    NoTurnYet(s, entries);
    var i := 0;
    while i < |entries|
      invariant 0 <= i <= |entries| == |r|
      invariant phone.dirs == AfterTurns(s, entries, i)
      invariant forall j: nat | j < i :: TurnTaken(s, entries, j, r[j], phone.unpacked)
      invariant forall j | i <= j < |r| :: r[j] == entries[j]
      invariant control.Later() && old(phone.unpacked) <= phone.unpacked
    {
      var e := r[i];
      ghost var seen, before := phone.unpacked, r;
      var error := "";
      if Wanted(e, filter) {
        var stop := control.Requested();
        if stop { break; }
        error := RestoreEntry(phone, disk, e, m);
        if error != "" { r := r[i := e.(error := error)]; }
      }
      StillTaken(s, entries, before, i, seen, phone.unpacked);
      TakesTurn(s, entries, i, error, phone.dirs, phone.unpacked);
      i := i + 1;
    }
    done := i;
    if forall j | 0 <= j < |entries| :: OwnArchives(entries[j], disk.files, m) {
      TurnsApart(s, entries, r, i, phone.unpacked);
      SoFarMeans(s, entries, r, i, phone.dirs, phone.unpacked);
    }
  }

  // ---------------------------------------------------------------- what a turn means

  /** A package that was not asked for, or whose name or archives do not hold up, is not touched, and neither is
      a tree there is no archive for. */
  lemma Untouched(s: Start, e: PackageEntry, now: Directories)
    requires OwnArchives(e, s.files, s.m) && Placed(s, e, now)
    ensures forall root | !Wanted(e, s.filter) || !Sound(e, s.files, s.m) || ArchiveOf(e, root) == "" ::
              SameAt(now, s.dirs, root, e.name)
  {
    hide IsValidPackageName, TreeAfter, Fate, ChecksumMatches;
    if Wanted(e, s.filter) && Sound(e, s.files, s.m) {
      var ce := PartAfter(e, CredentialEncrypted, s.files, s.dirs, s.answers);
      PartLocal(e, CredentialEncrypted, s.files, s.dirs, s.dirs, s.answers);
      PartLocal(e, DeviceProtected, s.files, ce, ce, s.answers);
    }
    forall root | !Wanted(e, s.filter) || !Sound(e, s.files, s.m) || ArchiveOf(e, root) == ""
      ensures SameAt(now, s.dirs, root, e.name)
    {
      match root
      case CredentialEncrypted => assert SameAt(TurnOf(s, e), s.dirs, CredentialEncrypted, e.name);
      case DeviceProtected => assert SameAt(TurnOf(s, e), s.dirs, DeviceProtected, e.name);
    }
  }

  /** The directory on the phone is what it was before, with everything the other phone's directory held written
      over it and given to its owner, except for what `chown` missed. */
  predicate Held(now: Directories, had: Directories, from: Directories, answers: Answers, root: Root, name: string) {
    && (root, name) in now && (root, name) in had && (root, name) in from
    && now[(root, name)] == Restored(had[(root, name)], from[(root, name)], answers.misses(root, name))
  }

  /** The directory and all it holds belong to the owner the directory had. */
  predicate Owned(now: Directories, had: Directories, root: Root, name: string) {
    && (root, name) in now && (root, name) in had && now[(root, name)].owner == had[(root, name)].owner
    && forall path | path in now[(root, name)].files ::
         now[(root, name)].files[path].owner == had[(root, name)].owner
  }

  /** The same, said file by file. */
  lemma HeldMeans(now: Directories, had: Directories, from: Directories, answers: Answers, root: Root, name: string)
    requires Held(now, had, from, answers, root, name)
    ensures var has, was, other := now[(root, name)], had[(root, name)], from[(root, name)];
            && has.files.Keys == was.files.Keys + other.files.Keys
            && (forall path | path in other.files :: has.files[path].content == other.files[path].content)
            && (forall path | path in was.files && path !in other.files ::
                  has.files[path].content == was.files[path].content)
    ensures answers.misses(root, name) == {} ==> Owned(now, had, root, name)
  {
    RestoredContents(had[(root, name)], from[(root, name)], answers.misses(root, name));
    RestoredOwners(had[(root, name)], from[(root, name)], answers.misses(root, name));
  }

  /** An entry that had what it needed has every tree of its archives back. */
  lemma WrittenBack(s: Start, e: PackageEntry, now: Directories, root: Root)
    requires OwnArchives(e, s.files, s.m) && Placed(s, e, now) && Wanted(e, s.filter)
    requires Restorable(e, s.files, s.dirs.Keys, s.answers, s.m) && ArchiveOf(e, root) != ""
    ensures ArchiveOf(e, root) in s.files && s.files[ArchiveOf(e, root)].Archive?
    ensures (root, e.name) in s.dirs && (root, e.name) in now
    ensures now[(root, e.name)] == Restored(s.dirs[(root, e.name)], s.files[ArchiveOf(e, root)].directory,
                                            s.answers.misses(root, e.name))
  {
    hide IsValidPackageName, TreeAfter, ChecksumMatches, Restored;
    var ce := PartAfter(e, CredentialEncrypted, s.files, s.dirs, s.answers);
    PartLocal(e, CredentialEncrypted, s.files, s.dirs, s.dirs, s.answers);
    PartLocal(e, DeviceProtected, s.files, ce, ce, s.answers);
    var dirs := if root.CredentialEncrypted? then s.dirs else ce;
    TreeRestored(dirs, s.answers, root, e.name, s.files[ArchiveOf(e, root)]);
  }

  // ---------------------------------------------------------------- there and back

  /** What passes verification is what was captured. */
  lemma SoundIsCaptured(e: PackageEntry, files: Files, phone: Directories, later: Files, m: Measure)
    requires Truthful(e, files, phone, m) && Guarded(e, files, later, m) && Sound(e, later, m)
    ensures forall root | ArchiveOf(e, root) != "" ::
              && (root, e.name) in phone && ArchiveOf(e, root) in later
              && later[ArchiveOf(e, root)] == Archive(e.name, phone[(root, e.name)])
  {
    hide IsValidPackageName, CePath, DePath;
  }

  /** Backups meet what restoring asks of its archives, whatever happened to the directory in between. */
  lemma BackupsAreOwn(e: PackageEntry, files: Files, phone: Directories, later: Files, m: Measure)
    requires Truthful(e, files, phone, m) && Guarded(e, files, later, m)
    ensures OwnArchives(e, later, m)
  {
    hide IsValidPackageName, CePath, DePath, Truthful, Guarded;
    if Sound(e, later, m) {
      SoundIsCaptured(e, files, phone, later, m);
      assert e.dataArchive == ArchiveOf(e, CredentialEncrypted) && e.deDataArchive == ArchiveOf(e, DeviceProtected);
    }
  }

  /** Where a captured tree comes back: the directory is on the phone, adb tells its owner, and unpacking goes
      through. */
  predicate Welcome(had: Directories, answers: Answers, root: Root, name: string) {
    (root, name) in had && answers.tells(root, name) && answers.unpacks(root, name).Through?
  }

  /** Backup, any change to the backup directory that its digests can tell, and a restore onto a phone in any
      state. The package comes back without an error exactly if its archives pass the check and each of them has
      a directory to go to; then that phone holds, tree by tree, all the other phone had. */
  lemma RestoresWhatWasCaptured(s: Start, e: PackageEntry, r: PackageEntry, files: Files, phone: Directories,
                                now: Directories, unpacked: set<(Root, string, Blob)>)
    requires Truthful(e, files, phone, s.m) && Guarded(e, files, s.files, s.m) && e.dataIncluded && e.error == ""
    requires (s.filter == [] || e.name in s.filter) && TurnDone(s, e, r, now, unpacked)
    ensures r.error == "" <==>
            Sound(e, s.files, s.m) &&
            forall root | ArchiveOf(e, root) != "" :: Welcome(s.dirs, s.answers, root, e.name)
    ensures r.error == "" ==> forall root | ArchiveOf(e, root) != "" ::
              Held(now, s.dirs, phone, s.answers, root, e.name)
  {
    hide IsValidPackageName, CePath, DePath, TurnDone, Held, Guarded, ChecksumMatches, Restorable;
    assert Wanted(e, s.filter);
    NeedsMet(s, e, files, phone);
    EndsWell(s, e, r, now, unpacked);
    if r.error == "" { HoldsCaptured(s, e, files, phone, now); }
  }

  lemma EndsWell(s: Start, e: PackageEntry, r: PackageEntry, now: Directories, unpacked: set<(Root, string, Blob)>)
    requires TurnDone(s, e, r, now, unpacked) && Wanted(e, s.filter) && e.error == ""
    ensures Placed(s, e, now) && (r.error == "" <==> Restorable(e, s.files, s.dirs.Keys, s.answers, s.m))
  {
    hide Restorable, Placed;
  }

  lemma HoldsCaptured(s: Start, e: PackageEntry, files: Files, phone: Directories, now: Directories)
    requires Truthful(e, files, phone, s.m) && Guarded(e, files, s.files, s.m) && Wanted(e, s.filter)
    requires Placed(s, e, now) && Restorable(e, s.files, s.dirs.Keys, s.answers, s.m)
    ensures forall root | ArchiveOf(e, root) != "" :: Held(now, s.dirs, phone, s.answers, root, e.name)
  {
    hide IsValidPackageName, CePath, DePath, Restored, Guarded, ChecksumMatches, Restorable, Placed, Truthful;
    NeedsMet(s, e, files, phone);
    BackupsAreOwn(e, files, phone, s.files, s.m);
    SoundIsCaptured(e, files, phone, s.files, s.m);
    forall root | ArchiveOf(e, root) != "" ensures Held(now, s.dirs, phone, s.answers, root, e.name) {
      WrittenBack(s, e, now, root);
    }
  }

  lemma NeedsMet(s: Start, e: PackageEntry, files: Files, phone: Directories)
    requires Truthful(e, files, phone, s.m) && Guarded(e, files, s.files, s.m)
    ensures Restorable(e, s.files, s.dirs.Keys, s.answers, s.m) <==>
            Sound(e, s.files, s.m) &&
            forall root | ArchiveOf(e, root) != "" :: Welcome(s.dirs, s.answers, root, e.name)
    ensures Restorable(e, s.files, s.dirs.Keys, s.answers, s.m) ==> Sound(e, s.files, s.m)
  {
    hide IsValidPackageName, CePath, DePath, Truthful, Guarded, ChecksumMatches;
    if Sound(e, s.files, s.m) {
      SoundIsCaptured(e, files, phone, s.files, s.m);
      assert Lands(e, CredentialEncrypted, s.files, s.dirs.Keys, s.answers) <==>
             (ArchiveOf(e, CredentialEncrypted) != "" ==> Welcome(s.dirs, s.answers, CredentialEncrypted, e.name));
      assert Lands(e, DeviceProtected, s.files, s.dirs.Keys, s.answers) <==>
             (ArchiveOf(e, DeviceProtected) != "" ==> Welcome(s.dirs, s.answers, DeviceProtected, e.name));
    }
  }
}
