/** The APKs of packages: the names they are pulled to, what pulling leaves in the backup directory, and
    installing them. */
module ApkFiles {
  import opened Wrappers
  import opened AndroidDevice
  import opened PackageNames
  import opened Manifest
  import opened PackageEntries
  import Json

  datatype Package = Package(name: string, isSystemApp: bool, apkPaths: seq<string>)

  // ---------------------------------------------------------------- names for pulled APKs

  function FileName(path: string): string {
    if path == "" || path[|path| - 1] == '/' then "" else FileName(path[..|path| - 1]) + [path[|path| - 1]]
  }

  function Numbered(i: nat, rest: string): string {
    "split_" + Json.NatText(i) + rest
  }

  /** The name the i-th APK would have if it were alone. */
  function BaseName(path: string, i: nat): string {
    var base := SanitizeForFilename(FileName(path));
    if base == "_" then Numbered(i, ".apk") else base
  }

  /** The name it gets after those already used. */
  function NextName(used: seq<string>, path: string): string {
    var base := BaseName(path, |used|);
    if base in used then Numbered(|used|, "_" + base) else base
  }

  function LocalNames(paths: seq<string>): (names: seq<string>)
    ensures |names| == |paths|
  {
    if paths == [] then []
    else
      var used := LocalNames(paths[..|paths| - 1]);
      used + [NextName(used, paths[|paths| - 1])]
  }

  /** The numbered name of an APK whose own name is taken is taken as well. */
  predicate SecondClash(used: seq<string>, path: string) {
    BaseName(path, |used|) in used && Numbered(|used|, "_" + BaseName(path, |used|)) in used
  }

  lemma {:induction false} LocalNamesPrefix(paths: seq<string>, k: nat)
    requires k <= |paths|
    ensures LocalNames(paths)[..k] == LocalNames(paths[..k])
  {
    if k < |paths| {
      LocalNamesPrefix(paths[..|paths| - 1], k);
      assert paths[..|paths| - 1][..k] == paths[..k];
    } else {
      assert paths[..k] == paths;
    }
  }

  lemma DistinctAppend(used: seq<string>, name: string)
    ensures Distinct(used + [name]) <==> Distinct(used) && name !in used
  {
    var all := used + [name];
    if Distinct(all) {
      forall i, j | 0 <= i < j < |used| ensures used[i] != used[j] { assert all[i] != all[j]; }
      forall i | 0 <= i < |used| ensures used[i] != name { assert all[i] != all[|used|]; }
    }
  }

  lemma TakenIff(used: seq<string>, path: string)
    ensures NextName(used, path) in used <==> SecondClash(used, path)
  {
  }

  predicate ClashAt(paths: seq<string>, k: nat)
    requires k < |paths|
  {
    SecondClash(LocalNames(paths[..k]), paths[k])
  }

  lemma ClashesBefore(paths: seq<string>)
    requires paths != []
    ensures var before := paths[..|paths| - 1];
            forall k: nat | k < |before| :: ClashAt(before, k) <==> ClashAt(paths, k)
  {
    var before := paths[..|paths| - 1];
    forall k: nat | k < |before| ensures ClashAt(before, k) <==> ClashAt(paths, k) {
      assert before[..k] == paths[..k] && before[k] == paths[k];
    }
  }

  lemma LocalNamesStep(paths: seq<string>)
    requires paths != []
    ensures var used := LocalNames(paths[..|paths| - 1]);
            LocalNames(paths) == used + [NextName(used, paths[|paths| - 1])]
  {
  }

  /** No two APKs of a package are pulled to the same file, exactly if for none of them both its own name and
      its numbered name are taken. */
  lemma {:induction false} LocalNamesDistinctIff(paths: seq<string>)
    ensures Distinct(LocalNames(paths)) <==> forall k: nat | k < |paths| :: !ClashAt(paths, k)
  {
    hide SecondClash, NextName, Distinct, LocalNames, BaseName;
    if paths == [] {
      NoneDistinct();
    } else {
      var last := |paths| - 1;
      LocalNamesStep(paths);
      ClashesBefore(paths);
      LocalNamesDistinctIff(paths[..last]);
      var used := LocalNames(paths[..last]);
      DistinctAppend(used, NextName(used, paths[last]));
      TakenIff(used, paths[last]);
      assert ClashAt(paths, last) <==> SecondClash(used, paths[last]);
    }
  }

  lemma NoneDistinct()
    ensures Distinct(LocalNames([]))
  {
  }

  lemma {:induction false} FileNameAfterSlash(dir: string, base: string)
    requires '/' !in base
    ensures FileName(dir + "/" + base) == base
  {
    var path := dir + "/" + base;
    if base != "" {
      assert path[|path| - 1] == base[|base| - 1];
      assert path[..|path| - 1] == dir + "/" + base[..|base| - 1];
      FileNameAfterSlash(dir, base[..|base| - 1]);
    }
  }

  lemma SafeAsItIs(name: string)
    requires name != "" && forall i | 0 <= i < |name| :: SafeChar(name[i]) == name[i]
    ensures SanitizeForFilename(name) == name
  {
  }

  lemma BaseOf(dir: string, base: string, i: nat)
    requires '/' !in base && base != "" && base != "_" && forall k | 0 <= k < |base| :: SafeChar(base[k]) == base[k]
    ensures BaseName(dir + "/" + base, i) == base
  {
    FileNameAfterSlash(dir, base);
    SafeAsItIs(base);
  }

  /** ... and it does happen: here the third APK overwrites the first. */
  lemma ApksCanClash()
    ensures LocalNames(["/1/split_2_a.apk", "/1/a.apk", "/2/a.apk"]) == ["split_2_a.apk", "a.apk", "split_2_a.apk"]
    ensures !Distinct(LocalNames(["/1/split_2_a.apk", "/1/a.apk", "/2/a.apk"]))
  {
    hide BaseName, FileName, SanitizeForFilename, LocalNames, Distinct, Numbered;
    ThreeBases();
    var paths := ["/1/split_2_a.apk", "/1/a.apk", "/2/a.apk"];
    assert paths[..2] == [paths[0], paths[1]] && paths[..2][..1] == [paths[0]] && [paths[0]][..0] == [];
    LocalNamesStep(paths);
    LocalNamesStep(paths[..2]);
    LocalNamesStep([paths[0]]);
    NoneDistinct();
    NumberedTwo();
    NotDistinct(LocalNames(paths), 0, 2);
  }

  lemma ThreeBases()
    ensures BaseName("/1/split_2_a.apk", 0) == "split_2_a.apk"
    ensures BaseName("/1/a.apk", 1) == "a.apk" && BaseName("/2/a.apk", 2) == "a.apk"
  {
    hide BaseName, SanitizeForFilename, FileName;
    BaseOf("/1", "split_2_a.apk", 0);
    BaseOf("/1", "a.apk", 1);
    BaseOf("/2", "a.apk", 2);
    assert "/1" + "/" + "split_2_a.apk" == "/1/split_2_a.apk";
    assert "/1" + "/" + "a.apk" == "/1/a.apk" && "/2" + "/" + "a.apk" == "/2/a.apk";
  }

  lemma NumberedTwo()
    ensures Numbered(2, "_" + "a.apk") == "split_2_a.apk"
  {
    assert Json.NatText(2) == "2";
  }

  lemma NotDistinct(names: seq<string>, i: nat, j: nat)
    requires i < j < |names| && names[i] == names[j]
    ensures !Distinct(names)
  {
  }

  // ---------------------------------------------------------------- pulling and installing APKs

  function ApkPath(name: string, file: string): string {
    "apks/" + (SanitizeForFilename(name) + ("/" + file))
  }

  function ApkPaths(name: string, files: seq<string>): (paths: seq<string>)
    ensures |paths| == |files|
  {
    seq(|files|, i requires 0 <= i < |files| => ApkPath(name, files[i]))
  }

  lemma NoNames()
    ensures LocalNames([]) == []
  {
  }

  predicate NoApks(e: PackageEntry) {
    !e.apkIncluded && e.apkFiles == []
  }

  /** APK fields and error aside, an entry is as it was. */
  predicate OnlyApks(before: PackageEntry, after: PackageEntry) {
    && after == before.(apkIncluded := after.apkIncluded, apkFiles := after.apkFiles, error := after.error)
    && (after.error == "" ==> before.error == "")
    && (after.apkIncluded <==> after.apkFiles != [])
  }

  const CANCELLED := "not captured: the backup was cancelled"

  lemma LocalNamesAt(paths: seq<string>, i: nat)
    requires i < |paths|
    ensures var used := LocalNames(paths[..i]);
            var name := NextName(used, paths[i]);
            LocalNames(paths[..i + 1]) == used + [name] && LocalNames(paths)[i] == name
  {
    hide NextName, LocalNames;
    var first := paths[..i + 1];
    assert first[..i] == paths[..i];
    LocalNamesStep(first);
    LocalNamesPrefix(paths, i + 1);
    assert LocalNames(paths)[i] == LocalNames(paths)[..i + 1][i];
  }

  method ChooseName(used: seq<string>, path: string) returns (base: string)
    ensures base == NextName(used, path)
  {
    base := SanitizeForFilename(FileName(path));
    if base == "" || base == "_" { base := Numbered(|used|, ".apk"); }
    if base in used { base := Numbered(|used|, "_" + base); }
  }

  function PullError(some: bool, cancelled: bool): (r: string)
    ensures |r| > 0
  {
    if some then "only some APK files could be pulled; the APK set is incomplete"
    else if cancelled then CANCELLED
    else "failed to pull APK file(s) from device"
  }

  /** The local files of the APKs that could be pulled, in order. */
  function PulledPaths(name: string, paths: seq<string>, answers: Answers): seq<string> {
    if paths == [] then []
    else
      var i := |paths| - 1;
      PulledPaths(name, paths[..i], answers) +
      if answers.pulls(name, i).Pulled? then [ApkPath(name, LocalNames(paths)[i])] else []
  }

  /** The backup directory after the APKs of a package have been pulled into it, one after the other. */
  function FilesAfter(files: Files, name: string, paths: seq<string>, answers: Answers, apks: Apks): Files {
    if paths == [] then files
    else
      var i := |paths| - 1;
      AfterPull(FilesAfter(files, name, paths[..i], answers, apks), ApkPath(name, LocalNames(paths)[i]),
                apks(paths[i]), answers.pulls(name, i))
  }

  predicate AllPulled(name: string, paths: seq<string>, answers: Answers) {
    forall i | 0 <= i < |paths| :: answers.pulls(name, i).Pulled?
  }

  lemma PulledStep(files: Files, name: string, paths: seq<string>, i: nat, answers: Answers, apks: Apks)
    requires i < |paths|
    ensures var path := ApkPath(name, LocalNames(paths)[i]);
            && PulledPaths(name, paths[..i + 1], answers) ==
               PulledPaths(name, paths[..i], answers) + (if answers.pulls(name, i).Pulled? then [path] else [])
            && FilesAfter(files, name, paths[..i + 1], answers, apks) ==
               AfterPull(FilesAfter(files, name, paths[..i], answers, apks), path, apks(paths[i]),
                         answers.pulls(name, i))
            && (AllPulled(name, paths[..i + 1], answers) <==>
                AllPulled(name, paths[..i], answers) && answers.pulls(name, i).Pulled?)
  {
    hide LocalNames, AfterPull, ApkPath;
    assert paths[..i + 1][..i] == paths[..i];
    LocalNamesPrefix(paths, i + 1);
    assert LocalNames(paths)[i] == LocalNames(paths)[..i + 1][i];
  }

  /** With no failed pull every APK is listed. */
  lemma {:induction false} AllListed(name: string, paths: seq<string>, answers: Answers)
    requires AllPulled(name, paths, answers)
    ensures PulledPaths(name, paths, answers) == ApkPaths(name, LocalNames(paths))
  {
    hide LocalNames, ApkPath;
    if paths == [] {
      NoNames();
    } else {
      var i := |paths| - 1;
      AllListed(name, paths[..i], answers);
      LocalNamesPrefix(paths, i);
      assert ApkPaths(name, LocalNames(paths)) ==
             ApkPaths(name, LocalNames(paths)[..i]) + [ApkPath(name, LocalNames(paths)[i])];
    }
  }

  /** One package: every APK that could be pulled is listed, and there is an error exactly if one could not. */
  method ExtractPackage(phone: Phone, disk: Disk, control: Control, package: Package, e: PackageEntry)
    returns (r: PackageEntry)
    requires NoApks(e) && package.name == e.name
    modifies disk, control
    ensures Extracted(e, r, package, phone.answers)
    ensures disk.files == FilesAfter(old(disk.files), e.name, package.apkPaths, phone.answers, phone.apks)
    ensures control.Later()
    ensures SaysWhatFailed(r, e.error, AllPulled(e.name, package.apkPaths, phone.answers))
  {
    hide LocalNames, SanitizeForFilename, FileName, Numbered, NextName, ApkPath, FilesAfter, PulledPaths, AllPulled,
         AfterPull, Extracted, PullError, SaysWhatFailed, PullErrorText;
    var used: seq<string> := [];
    var local: seq<string> := [];
    var anyFailed := false;
    ghost var paths := package.apkPaths;
    NothingPulled(disk.files, e.name, paths, phone.answers, phone.apks);
    for i := 0 to |package.apkPaths|
      invariant used == LocalNames(paths[..i])
      invariant local == PulledPaths(e.name, paths[..i], phone.answers)
      invariant disk.files == FilesAfter(old(disk.files), e.name, paths[..i], phone.answers, phone.apks)
      invariant anyFailed <==> !AllPulled(e.name, paths[..i], phone.answers)
      invariant control.Later()
    {
      LocalNamesAt(paths, i);
      PulledStep(old(disk.files), e.name, paths, i, phone.answers, phone.apks);
      var base := ChooseName(used, package.apkPaths[i]);
      used := used + [base];
      var ok := phone.Pull(disk, e.name, i, package.apkPaths[i], ApkPath(e.name, base));
      if ok { local := local + [ApkPath(e.name, base)]; } else { anyFailed := true; }
    }
    assert paths[..|paths|] == paths;
    var error := Failure(control, e.error, local != [], anyFailed);
    r := if local != [] then e.(apkIncluded := true, apkFiles := local, error := error) else e.(error := error);
    WithApks(e, r, package, error, anyFailed, local, phone.answers);
    TextIs(r, e.error, anyFailed, local != []);
  }

  /** What is to be said of APKs that could not be pulled, if there are any. */
  method Failure(control: Control, before: string, some: bool, anyFailed: bool) returns (error: string)
    modifies control
    ensures if anyFailed then error != "" && PullErrorText(error, some) else error == before
    ensures control.Later()
  {
    hide PullError, PullErrorText;
    error := before;
    if anyFailed {
      var cancelled := false;
      if !some { cancelled := control.Requested(); }
      error := PullError(some, cancelled);
      PullErrorIs(some, cancelled);
    }
  }

  /** What an entry says of APKs that could not be pulled. */
  predicate SaysWhatFailed(e: PackageEntry, before: string, allPulled: bool) {
    if allPulled then e.error == before else PullErrorText(e.error, e.apkIncluded)
  }

  predicate PullErrorText(error: string, some: bool) {
    if some then error == "only some APK files could be pulled; the APK set is incomplete"
    else error == "failed to pull APK file(s) from device" || error == "not captured: the backup was cancelled"
  }

  lemma PullErrorIs(some: bool, cancelled: bool)
    ensures PullErrorText(PullError(some, cancelled), some)
  {
  }

  lemma TextIs(e: PackageEntry, before: string, anyFailed: bool, some: bool)
    requires e.apkIncluded == some && if anyFailed then PullErrorText(e.error, some) else e.error == before
    ensures SaysWhatFailed(e, before, !anyFailed)
  {
    hide PullErrorText;
  }

  lemma NothingPulled(files: Files, name: string, paths: seq<string>, answers: Answers, apks: Apks)
    ensures PulledPaths(name, paths[..0], answers) == [] && FilesAfter(files, name, paths[..0], answers, apks) == files
    ensures AllPulled(name, paths[..0], answers) && LocalNames(paths[..0]) == []
  {
  }

  lemma WithApks(e: PackageEntry, r: PackageEntry, package: Package, error: string, anyFailed: bool,
                 local: seq<string>, answers: Answers)
    requires NoApks(e) && package.name == e.name && local == PulledPaths(e.name, package.apkPaths, answers)
    requires anyFailed <==> !AllPulled(e.name, package.apkPaths, answers)
    requires if anyFailed then error != "" else error == e.error
    requires r == if local != [] then e.(apkIncluded := true, apkFiles := local, error := error) else e.(error := error)
    ensures Extracted(e, r, package, answers)
  {
    hide PulledPaths, AllPulled;
  }

  /** What extraction leaves for a package: the APKs that could be pulled, and an error exactly if one could not. */
  ghost predicate Extracted(before: PackageEntry, after: PackageEntry, package: Package, answers: Answers) {
    && OnlyApks(before, after)
    && after.apkFiles == PulledPaths(package.name, package.apkPaths, answers)
    && (after.error != "" <==> before.error != "" || !AllPulled(package.name, package.apkPaths, answers))
  }

  // ---------------------------------------------------------------- APKs on disk

  /** Every APK of a package is in the file its manifest entry names for it. */
  predicate ApksKept(files: Files, package: Package, apks: Apks) {
    forall k: nat | k < |package.apkPaths| ::
      var path := ApkPath(package.name, LocalNames(package.apkPaths)[k]);
      path in files && files[path] == Other(apks(package.apkPaths[k]))
  }

  predicate NoClashes(paths: seq<string>) {
    forall k: nat | k < |paths| :: !ClashAt(paths, k)
  }

  /** The APKs of a package differ from one another. */
  predicate AllDiffer(paths: seq<string>, apks: Apks) {
    forall i, j | 0 <= i < j < |paths| :: apks(paths[i]) != apks(paths[j])
  }

  /** Where the APKs of a package differ, all of them are kept exactly if no name is taken twice over. */
  predicate KeptIff(files: Files, package: Package, apks: Apks) {
    && (NoClashes(package.apkPaths) ==> ApksKept(files, package, apks))
    && (AllDiffer(package.apkPaths, apks) && ApksKept(files, package, apks) ==> NoClashes(package.apkPaths))
  }

  lemma ApkPathsDiffer(name: string, a: string, b: string)
    requires ApkPath(name, a) == ApkPath(name, b)
    ensures a == b
  {
    hide SanitizeForFilename;
    var n := |"apks/"| + |SanitizeForFilename(name)| + 1;
    assert ApkPath(name, a)[n..] == a && ApkPath(name, b)[n..] == b;
  }

  lemma DistinctPrefix(names: seq<string>, i: nat)
    requires Distinct(names) && i <= |names|
    ensures Distinct(names[..i])
  {
  }

  /** Files pulled under different names do not overwrite one another. */
  lemma {:induction false} KeptIfDistinct(files: Files, name: string, paths: seq<string>, answers: Answers, apks: Apks,
                                          k: nat)
    requires AllPulled(name, paths, answers) && Distinct(LocalNames(paths)) && k < |paths|
    ensures var now, path := FilesAfter(files, name, paths, answers, apks), ApkPath(name, LocalNames(paths)[k]);
            path in now && now[path] == Other(apks(paths[k]))
  {
    hide ApkPath, LocalNames, Distinct;
    var i := |paths| - 1;
    var names := LocalNames(paths);
    if k < i {
      LocalNamesPrefix(paths, i);
      DistinctPrefix(names, i);
      assert names[k] == LocalNames(paths[..i])[k];
      KeptIfDistinct(files, name, paths[..i], answers, apks, k);
      if ApkPath(name, names[k]) == ApkPath(name, names[i]) {
        ApkPathsDiffer(name, names[k], names[i]);
        Differ(names, k, i);
      }
    }
  }

  lemma Differ(names: seq<string>, i: nat, j: nat)
    requires Distinct(names) && i < j < |names|
    ensures names[i] != names[j]
  {
  }

  /** No APK of a package is overwritten exactly if for none of them both its own and its numbered name are taken. */
  lemma PulledKeptIff(files: Files, package: Package, answers: Answers, apks: Apks)
    requires AllPulled(package.name, package.apkPaths, answers)
    ensures KeptIff(FilesAfter(files, package.name, package.apkPaths, answers, apks), package, apks)
  {
    hide LocalNames, ClashAt, FilesAfter, AllPulled, ApkPath;
    var paths := package.apkPaths;
    LocalNamesDistinctIff(paths);
    if NoClashes(paths) {
      forall k: nat | k < |paths| { KeptIfDistinct(files, package.name, paths, answers, apks, k); }
    }
    var now := FilesAfter(files, package.name, paths, answers, apks);
    if AllDiffer(paths, apks) && ApksKept(now, package, apks) {
      var names := LocalNames(paths);
      forall i, j | 0 <= i < j < |names| ensures names[i] != names[j] {
        assert now[ApkPath(package.name, names[i])] == Other(apks(paths[i]));
        assert now[ApkPath(package.name, names[j])] == Other(apks(paths[j]));
      }
    }
  }

  /** The directory the APKs of a package are pulled into. */
  function ApkDir(name: string): string {
    "apks/" + SanitizeForFilename(name) + "/"
  }

  lemma SafeHasNoSlash(name: string)
    ensures '/' !in SanitizeForFilename(name)
  {
  }

  lemma OneDir(p: string, q: string, file: string)
    requires ApkDir(p) <= ApkPath(q, file)
    ensures SanitizeForFilename(p) == SanitizeForFilename(q)
  {
    hide SanitizeForFilename;
    SafeHasNoSlash(p);
    SafeHasNoSlash(q);
    var a, b := SanitizeForFilename(p), SanitizeForFilename(q);
    var long := ApkPath(q, file);
    assert ApkDir(p)[5 + |a|] == '/' && long[5 + |b|] == '/';
    assert forall i | 0 <= i < |a| :: ApkDir(p)[5 + i] == a[i];
    assert forall i | 0 <= i < |b| :: long[5 + i] == b[i];
  }

  /** Nothing outside the package's directory changes. */
  ghost predicate OnlyBelow(now: Files, was: Files, dir: string) {
    forall path | !(dir <= path) :: (path in now <==> path in was) && (path in now ==> now[path] == was[path])
  }

  lemma {:induction false} PullsBelow(files: Files, name: string, paths: seq<string>, answers: Answers, apks: Apks)
    ensures OnlyBelow(FilesAfter(files, name, paths, answers, apks), files, ApkDir(name))
  {
    hide LocalNames, SanitizeForFilename;
    if paths != [] {
      var i := |paths| - 1;
      PullsBelow(files, name, paths[..i], answers, apks);
      BelowDir(name, LocalNames(paths)[i]);
    }
  }

  lemma BelowDir(name: string, file: string)
    ensures ApkDir(name) <= ApkPath(name, file)
  {
    hide SanitizeForFilename;
    assert ApkPath(name, file) == ApkDir(name) + file;
  }

  lemma OtherKept(now: Files, was: Files, package: Package, name: string, apks: Apks)
    requires OnlyBelow(now, was, ApkDir(name)) && SanitizeForFilename(name) != SanitizeForFilename(package.name)
    ensures KeptIff(was, package, apks) ==> KeptIff(now, package, apks)
  {
    hide LocalNames, SanitizeForFilename, ApkDir, ApkPath, NoClashes, AllDiffer;
    forall k: nat | k < |package.apkPaths|
      ensures var path := ApkPath(package.name, LocalNames(package.apkPaths)[k]);
              (path in now <==> path in was) && (path in now ==> now[path] == was[path])
    {
      var file := LocalNames(package.apkPaths)[k];
      if ApkDir(name) <= ApkPath(package.name, file) { OneDir(name, package.name, file); }
    }
    assert ApksKept(now, package, apks) <==> ApksKept(was, package, apks);
  }

  /** No two packages share a directory for their APKs. */
  predicate OwnDirs(packages: seq<Package>) {
    forall i, j | 0 <= i < j < |packages| ::
      SanitizeForFilename(packages[i].name) != SanitizeForFilename(packages[j].name)
  }

  /** What extraction leaves on disk: a package without a failed pull keeps its APKs. */
  ghost predicate AllKept(files: Files, packages: seq<Package>, n: nat, answers: Answers, apks: Apks) {
    n <= |packages| &&
    (OwnDirs(packages) ==>
       forall i: nat | i < n && AllPulled(packages[i].name, packages[i].apkPaths, answers) ::
         KeptIff(files, packages[i], apks))
  }

  lemma KeepsAll(files: Files, packages: seq<Package>, n: nat, answers: Answers, apks: Apks)
    requires n < |packages| && AllKept(files, packages, n, answers, apks)
    ensures AllKept(FilesAfter(files, packages[n].name, packages[n].apkPaths, answers, apks), packages, n + 1, answers,
                    apks)
  {
    hide FilesAfter, AllPulled, KeptIff, ApkDir, SanitizeForFilename;
    var package := packages[n];
    var now := FilesAfter(files, package.name, package.apkPaths, answers, apks);
    PullsBelow(files, package.name, package.apkPaths, answers, apks);
    if OwnDirs(packages) {
      forall i: nat | i < n + 1 && AllPulled(packages[i].name, packages[i].apkPaths, answers)
        ensures KeptIff(now, packages[i], apks)
      {
        if i < n { OtherKept(now, files, packages[i], package.name, apks); }
        else { PulledKeptIff(files, package, answers, apks); }
      }
    }
  }

  lemma NoApksKept(files: Files, packages: seq<Package>, n: nat, answers: Answers, apks: Apks)
    requires n < |packages| && AllKept(files, packages, n, answers, apks) && packages[n].apkPaths == []
    ensures AllKept(files, packages, n + 1, answers, apks)
  {
    hide SanitizeForFilename;
    KeepsAll(files, packages, n, answers, apks);
  }

  method ExtractApks(phone: Phone, disk: Disk, control: Control, packages: seq<Package>, entries: seq<PackageEntry>)
    returns (r: seq<PackageEntry>)
    requires |packages| == |entries| && Distinct(Names(entries))
    requires forall i | 0 <= i < |entries| :: entries[i].name == packages[i].name && NoApks(entries[i])
    modifies disk, control
    ensures |r| == |entries|
    ensures forall i | 0 <= i < |r| :: r[i] == entries[i] || Extracted(entries[i], r[i], packages[i], phone.answers)
    ensures !control.cancelled ==>
              && (forall i | 0 <= i < |r| :: Extracted(entries[i], r[i], packages[i], phone.answers))
              && AllKept(disk.files, packages, |packages|, phone.answers, phone.apks)
    ensures control.Later()
  {
    hide LocalNames, ApkPaths, Distinct, FilesAfter, Extracted, AllKept, NoApks, PulledPaths, AllPulled;
    r := entries;
    NoneKept(disk.files, packages, phone.answers, phone.apks);
    for k := 0 to |packages|
      invariant |r| == |entries|
      invariant forall i | k <= i < |r| :: r[i] == entries[i]
      invariant forall i | 0 <= i < k :: Extracted(entries[i], r[i], packages[i], phone.answers)
      invariant AllKept(disk.files, packages, k, phone.answers, phone.apks)
      invariant control.Later()
    {
      var stop := control.Requested();
      if stop { return; }
      OnlyAt(entries, packages, r, k, phone.answers);
      var found := Find(r, packages[k].name);
      if packages[k].apkPaths == [] {
        NothingToExtract(entries[k], packages[k], phone.answers);
        NoApksKept(disk.files, packages, k, phone.answers, phone.apks);
      } else {
        KeepsAll(disk.files, packages, k, phone.answers, phone.apks);
        var e := ExtractPackage(phone, disk, control, packages[k], r[k]);
        r := r[found.value := e];
      }
    }
  }

  lemma NoneKept(files: Files, packages: seq<Package>, answers: Answers, apks: Apks)
    ensures AllKept(files, packages, 0, answers, apks)
  {
  }

  /** The entry found by name is the one at the package's own place. */
  lemma OnlyAt(entries: seq<PackageEntry>, packages: seq<Package>, r: seq<PackageEntry>, k: nat, answers: Answers)
    requires |r| == |entries| == |packages| && k < |r| && Distinct(Names(entries))
    requires forall i | 0 <= i < |r| :: entries[i].name == packages[i].name
    requires forall i | k <= i < |r| :: r[i] == entries[i]
    requires forall i | 0 <= i < k :: Extracted(entries[i], r[i], packages[i], answers)
    ensures forall i | 0 <= i < |r| && r[i].name == packages[k].name :: i == k
    ensures r[k].name == packages[k].name
  {
    hide PulledPaths, AllPulled;
    var names := Names(entries);
    forall i | 0 <= i < |r| && r[i].name == packages[k].name ensures i == k {
      assert names[i] == names[k];
    }
  }

  lemma NothingToExtract(e: PackageEntry, package: Package, answers: Answers)
    requires NoApks(e) && package.apkPaths == []
    ensures Extracted(e, e, package, answers)
  {
  }

  /** Whether installing is due for an entry. */
  predicate InstallDue(e: PackageEntry, selected: seq<string>) {
    e.name in selected && e.apkIncluded && e.apkFiles != []
  }

  function InstallError(): (text: string)
    ensures text != ""
  {
    "failed to install APK(s)"
  }

  /** The phone once the app of an entry is installed, if that is due and works. */
  function ReadyFor(was: Directories, e: PackageEntry, selected: seq<string>, answers: Answers): Directories {
    if InstallDue(e, selected) && answers.installs(e.name) then AfterInstall(was, e.name, answers.users(e.name))
    else was
  }

  predicate Ready(was: Directories, now: Directories, e: PackageEntry, selected: seq<string>, answers: Answers) {
    && SameAt(now, ReadyFor(was, e, selected, answers), CredentialEncrypted, e.name)
    && SameAt(now, ReadyFor(was, e, selected, answers), DeviceProtected, e.name)
  }

  predicate AsItWas(was: Directories, now: Directories, name: string) {
    SameAt(now, was, CredentialEncrypted, name) && SameAt(now, was, DeviceProtected, name)
  }

  /** Installing one app leaves the directories of all others alone. */
  lemma InstallLocal(mid: Directories, was: Directories, e: PackageEntry, selected: seq<string>, answers: Answers)
    requires AsItWas(was, mid, e.name)
    ensures Ready(was, ReadyFor(mid, e, selected, answers), e, selected, answers)
    ensures forall root, name | name != e.name :: SameAt(ReadyFor(mid, e, selected, answers), mid, root, name)
  {
  }

  /** The phone after the first k entries. */
  ghost predicate ReadySoFar(was: Directories, now: Directories, entries: seq<PackageEntry>, k: nat,
                             selected: seq<string>, answers: Answers) {
    && k <= |entries|
    && (forall i | 0 <= i < k :: Ready(was, now, entries[i], selected, answers))
    && (forall root, name | name !in Names(entries)[..k] :: SameAt(now, was, root, name))
  }

  lemma ReadyNext(was: Directories, mid: Directories, entries: seq<PackageEntry>, k: nat, selected: seq<string>,
                  answers: Answers)
    requires k < |entries| && Distinct(Names(entries)) && ReadySoFar(was, mid, entries, k, selected, answers)
    ensures ReadySoFar(was, ReadyFor(mid, entries[k], selected, answers), entries, k + 1, selected, answers)
  {
    hide ReadyFor, SameAt;
    var names := Names(entries);
    var now := ReadyFor(mid, entries[k], selected, answers);
    assert names[k] !in names[..k] && names[..k + 1] == names[..k] + [names[k]];
    InstallLocal(mid, was, entries[k], selected, answers);
    forall i | 0 <= i < k ensures Ready(was, now, entries[i], selected, answers) {
      assert names[i] != names[k];
      SameChains(now, mid, ReadyFor(was, entries[i], selected, answers), entries[i].name);
    }
    forall root, name | name !in names[..k + 1] ensures SameAt(now, was, root, name) {
      OneChains(now, mid, was, root, name);
    }
  }

  lemma SameChains(a: Directories, b: Directories, c: Directories, name: string)
    requires AsItWas(b, a, name) && AsItWas(c, b, name)
    ensures AsItWas(c, a, name)
  {
  }

  lemma OneChains(a: Directories, b: Directories, c: Directories, root: Root, name: string)
    requires SameAt(a, b, root, name) && SameAt(b, c, root, name)
    ensures SameAt(a, c, root, name)
  {
  }

  /** What installing leaves on the phone: every entry's app installed as far as that was due and worked, or not yet
      if the user cancelled; all other directories as they were. */
  ghost predicate AllReady(was: Directories, now: Directories, entries: seq<PackageEntry>, selected: seq<string>,
                           answers: Answers, cancelled: bool) {
    && (forall i | 0 <= i < |entries| ::
          Ready(was, now, entries[i], selected, answers) || (cancelled && AsItWas(was, now, entries[i].name)))
    && (forall root, name | name !in Names(entries) :: SameAt(now, was, root, name))
  }

  lemma ReadyMeans(was: Directories, now: Directories, entries: seq<PackageEntry>, k: nat, selected: seq<string>,
                   answers: Answers, cancelled: bool)
    requires Distinct(Names(entries)) && ReadySoFar(was, now, entries, k, selected, answers)
    requires !cancelled ==> k == |entries|
    ensures AllReady(was, now, entries, selected, answers, cancelled)
  {
    hide Ready, SameAt;
    var names := Names(entries);
    forall i | k <= i < |entries| ensures AsItWas(was, now, names[i]) {
      assert names[i] !in names[..k];
    }
  }

  lemma NothingInstalled(was: Directories, entries: seq<PackageEntry>, selected: seq<string>, answers: Answers)
    ensures ReadySoFar(was, was, entries, 0, selected, answers)
  {
    SameAsItself(was);
  }

  /** Unless cancelled, an entry has an error exactly if it had one before or its APKs could not be installed. */
  method InstallApks(phone: Phone, control: Control, entries: seq<PackageEntry>, selected: seq<string>)
    returns (r: seq<PackageEntry>)
    requires Distinct(Names(entries))
    modifies phone`installed, phone`dirs, control
    ensures |r| == |entries| && forall i | 0 <= i < |r| :: OnlyError(entries[i], r[i])
    ensures forall i | 0 <= i < |r| && !InstallDue(entries[i], selected) :: r[i] == entries[i]
    ensures !control.cancelled ==>
              forall i | 0 <= i < |r| ::
                && (r[i].error == "" <==>
                    entries[i].error == "" &&
                    (InstallDue(entries[i], selected) ==> phone.answers.installs(entries[i].name)))
                && (InstallDue(entries[i], selected) && r[i].error == "" ==> entries[i].apkFiles in phone.installed)
    ensures AllReady(old(phone.dirs), phone.dirs, entries, selected, phone.answers, control.cancelled)
    ensures control.Later()
    ensures old(phone.installed) <= phone.installed
  {
    hide InstallError, ReadySoFar, AllReady, Distinct, Names, AfterInstall;
    r := entries;
    NothingInstalled(phone.dirs, entries, selected, phone.answers);
    for k := 0 to |entries|
      invariant |r| == |entries| && forall i | 0 <= i < |r| :: OnlyError(entries[i], r[i])
      invariant forall i | 0 <= i < |r| && (i >= k || !InstallDue(entries[i], selected)) :: r[i] == entries[i]
      invariant forall i | 0 <= i < k ::
                  && (r[i].error == "" <==>
                      entries[i].error == "" &&
                      (InstallDue(entries[i], selected) ==> phone.answers.installs(entries[i].name)))
                  && (InstallDue(entries[i], selected) && r[i].error == "" ==> entries[i].apkFiles in phone.installed)
      invariant ReadySoFar(old(phone.dirs), phone.dirs, entries, k, selected, phone.answers)
      invariant control.Later()
      invariant old(phone.installed) <= phone.installed
    {
      var e := r[k];
      if e.name in selected {
        var stop := control.Requested();
        if stop {
          ReadyMeans(old(phone.dirs), phone.dirs, entries, k, selected, phone.answers, true);
          return;
        }
        ReadyNext(old(phone.dirs), phone.dirs, entries, k, selected, phone.answers);
        if e.apkIncluded && e.apkFiles != [] {
          var ok := phone.Install(e.name, e.apkFiles);
          if !ok { r := r[k := e.(error := InstallError())]; }
        }
      } else {
        ReadyNext(old(phone.dirs), phone.dirs, entries, k, selected, phone.answers);
      }
    }
    ReadyMeans(old(phone.dirs), phone.dirs, entries, |entries|, selected, phone.answers, control.cancelled);
  }
}
