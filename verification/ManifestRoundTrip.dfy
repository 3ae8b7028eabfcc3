/** A manifest written to JSON is read back whole. */
module ManifestRoundTrip {
  import opened Json
  import opened Manifest
  import opened JsonRoundTrip
  import JsonParser

  // ---------------------------------------------------------------- keys

  lemma DeviceKeysDiffer(d: Device)
    ensures KeysDiffer(DeviceMembers(d))
  {
    assert "serial"[0] != "rooted"[0];
  }

  lemma PackageKeysDiffer(p: PackageEntry)
    ensures KeysDiffer(PackageMembers(p))
  {
    hide CaptureMethodName, Strings;
    assert "apk_included"[0] != "data_archive"[0];
    assert "data_capture_method"[5] != "data_archive_sha256"[5];
    assert "de_data_archive_bytes"[0] != "external_data_archive"[0];
    assert "de_data_archive_sha256"[0] != "external_data_included"[0];
  }

  lemma CaptureKeysDiffer(c: FilesystemCapture)
    ensures KeysDiffer(CaptureMembers(c))
  {
  }

  lemma ExportKeysDiffer(e: PersonalExport)
    ensures KeysDiffer(ExportMembers(e))
  {
    assert "format"[0] != "sha256"[0];
    assert "local_path"[0] != "item_count"[0];
  }

  lemma ManifestKeysDiffer(m: Manifest)
    ensures KeysDiffer(ManifestMembers(m))
  {
    hide DeviceMembers, Captures, Exports, Packages;
    assert "format_version"[0] != "created_at_utc"[0];
    assert "shared_storage_archive"[0] != "legacy_adb_backup_file"[0];
  }

  /** Where keys differ, looking one up finds its own value. */
  lemma {:induction false} LooksUp(members: seq<Member>, i: nat)
    requires KeysDiffer(members) && i < |members|
    ensures Lookup(members, members[i].key) == members[i].value
    decreases i
  {
    if i > 0 {
      assert members[0].key != members[i].key;
      forall a, b | 0 <= a < b < |members[1..]| ensures members[1..][a].key != members[1..][b].key {
        assert members[a + 1].key != members[b + 1].key;
      }
      LooksUp(members[1..], i - 1);
    }
  }

  /** Setting a list's members one by one builds the list. */
  lemma SetsNext(all: seq<Member>, i: nat)
    requires KeysDiffer(all) && i < |all|
    ensures SetMember(all[..i], all[i].key, all[i].value) == all[..i + 1]
  {
    forall j | 0 <= j < i ensures all[..i][j].key != all[i].key { assert all[j].key != all[i].key; }
    SetsNewMember(all[..i], all[i].key, all[i].value);
  }

  // ---------------------------------------------------------------- records

  lemma DeviceReads(d: Device, cast: Cast)
    requires Int32(d.sdkInt)
    ensures DeviceFrom(Object(DeviceMembers(d)), cast) == d
  {
    hide Lookup, KeysDiffer;
    var members := DeviceMembers(d);
    DeviceKeysDiffer(d);
    LooksUp(members, 0);
    LooksUp(members, 1);
    LooksUp(members, 2);
    LooksUp(members, 3);
    LooksUp(members, 4);
    LooksUp(members, 6);
    RootMethodReads(d.root);
  }

  lemma RootMethodReads(m: RootMethod)
    ensures RootMethodFromName(RootMethodName(m)) == m
  {
    assert "adbd_root"[0] != "su_binary"[0];
  }

  lemma CaptureMethodReads(m: CaptureMethod)
    ensures CaptureMethodFromName(CaptureMethodName(m)) == m
  {
  }

  lemma StringsRead(texts: seq<string>)
    ensures StringsFrom(Strings(texts)) == texts
  {
  }

  lemma PackageFields(p: PackageEntry)
    ensures Get(Object(PackageMembers(p)), "name") == String(p.name)
    ensures Get(Object(PackageMembers(p)), "system_app") == Bool(p.isSystemApp)
    ensures Get(Object(PackageMembers(p)), "apk_included") == Bool(p.apkIncluded)
    ensures Get(Object(PackageMembers(p)), "apk_files") == Array(Strings(p.apkFiles))
    ensures Get(Object(PackageMembers(p)), "data_included") == Bool(p.dataIncluded)
    ensures Get(Object(PackageMembers(p)), "data_capture_method") == String(CaptureMethodName(p.dataCaptureMethod))
    ensures Get(Object(PackageMembers(p)), "data_archive") == String(p.dataArchive)
  {
    hide Lookup, KeysDiffer, CaptureMethodName, Strings;
    PackageKeysDiffer(p);
    LooksUp(PackageMembers(p), 0);
    LooksUp(PackageMembers(p), 1);
    LooksUp(PackageMembers(p), 2);
    LooksUp(PackageMembers(p), 3);
    LooksUp(PackageMembers(p), 4);
    LooksUp(PackageMembers(p), 5);
    LooksUp(PackageMembers(p), 6);
  }

  lemma PackageArchives(p: PackageEntry)
    ensures Get(Object(PackageMembers(p)), "data_archive_bytes") == Number(p.dataArchiveBytes)
    ensures Get(Object(PackageMembers(p)), "data_archive_sha256") == String(p.dataArchiveSha256)
    ensures Get(Object(PackageMembers(p)), "de_data_archive") == String(p.deDataArchive)
    ensures Get(Object(PackageMembers(p)), "de_data_archive_bytes") == Number(p.deDataArchiveBytes)
    ensures Get(Object(PackageMembers(p)), "de_data_archive_sha256") == String(p.deDataArchiveSha256)
  {
    hide Lookup, KeysDiffer, CaptureMethodName, Strings;
    PackageKeysDiffer(p);
    LooksUp(PackageMembers(p), 7);
    LooksUp(PackageMembers(p), 8);
    LooksUp(PackageMembers(p), 9);
    LooksUp(PackageMembers(p), 10);
    LooksUp(PackageMembers(p), 11);
  }

  lemma PackageExternals(p: PackageEntry)
    ensures Get(Object(PackageMembers(p)), "external_data_included") == Bool(p.externalDataIncluded)
    ensures Get(Object(PackageMembers(p)), "external_data_archive") == String(p.externalDataArchive)
    ensures Get(Object(PackageMembers(p)), "external_data_archive_bytes") == Number(p.externalDataArchiveBytes)
    ensures Get(Object(PackageMembers(p)), "external_data_archive_sha256") == String(p.externalDataArchiveSha256)
    ensures Get(Object(PackageMembers(p)), "error") == String(p.error)
  {
    hide Lookup, KeysDiffer, CaptureMethodName, Strings;
    PackageKeysDiffer(p);
    LooksUp(PackageMembers(p), 12);
    LooksUp(PackageMembers(p), 13);
    LooksUp(PackageMembers(p), 14);
    LooksUp(PackageMembers(p), 15);
    LooksUp(PackageMembers(p), 16);
  }

  lemma PackageReads(p: PackageEntry, mode: string, cast: Cast)
    requires PackageFits(p)
    ensures PackageFrom(Object(PackageMembers(p)), mode, cast) == p
  {
    PackageFields(p);
    PackageArchives(p);
    PackageExternals(p);
    assert HasKey(PackageMembers(p), "data_capture_method") by {
      assert PackageMembers(p)[5].key == "data_capture_method";
    }
    hide Get, PackageMembers, CaptureMethodName, Strings, CaptureMethodFromName, StringsFrom, HasKey;
    CaptureMethodReads(p.dataCaptureMethod);
    StringsRead(p.apkFiles);
  }

  lemma CaptureReads(c: FilesystemCapture, cast: Cast)
    requires Size(c.size)
    ensures CaptureFrom(Object(CaptureMembers(c)), cast) == c
  {
    hide Lookup, KeysDiffer;
    var members := CaptureMembers(c);
    CaptureKeysDiffer(c);
    LooksUp(members, 0);
    LooksUp(members, 1);
    LooksUp(members, 2);
    LooksUp(members, 3);
    LooksUp(members, 4);
  }

  lemma ExportReads(e: PersonalExport, cast: Cast)
    requires Size(e.size) && Int32(e.itemCount)
    ensures ExportFrom(Object(ExportMembers(e)), cast) == e
  {
    hide Lookup, KeysDiffer;
    var members := ExportMembers(e);
    ExportKeysDiffer(e);
    LooksUp(members, 0);
    LooksUp(members, 1);
    LooksUp(members, 2);
    LooksUp(members, 3);
    LooksUp(members, 4);
    LooksUp(members, 5);
  }

  // ---------------------------------------------------------------- lists of records

  lemma {:induction false} CapturesRead(captures: seq<FilesystemCapture>, cast: Cast)
    requires forall i :: 0 <= i < |captures| ==> Size(captures[i].size)
    ensures CapturesFrom(Captures(captures), cast) == captures
    decreases |captures|
  {
    hide CaptureMembers, CaptureFrom;
    if captures != [] {
      CaptureReads(captures[0], cast);
      CapturesRead(captures[1..], cast);
      assert Captures(captures)[1..] == Captures(captures[1..]);
    }
  }

  lemma {:induction false} ExportsRead(exports: seq<PersonalExport>, cast: Cast)
    requires forall i :: 0 <= i < |exports| ==> Size(exports[i].size) && Int32(exports[i].itemCount)
    ensures ExportsFrom(Exports(exports), cast) == exports
    decreases |exports|
  {
    hide ExportMembers, ExportFrom;
    if exports != [] {
      ExportReads(exports[0], cast);
      ExportsRead(exports[1..], cast);
      assert Exports(exports)[1..] == Exports(exports[1..]);
    }
  }

  lemma {:induction false} PackagesRead(packages: seq<PackageEntry>, mode: string, cast: Cast)
    requires forall i :: 0 <= i < |packages| ==> PackageFits(packages[i])
    ensures PackagesFrom(Packages(packages), mode, cast) == packages
    decreases |packages|
  {
    hide PackageMembers, PackageFrom, PackageFits;
    if packages != [] {
      PackageReads(packages[0], mode, cast);
      PackagesRead(packages[1..], mode, cast);
      assert Packages(packages)[1..] == Packages(packages[1..]);
    }
  }

  // ---------------------------------------------------------------- the manifest

  lemma ManifestFields(m: Manifest)
    ensures Get(Object(ManifestMembers(m)), "format_version") == Number(m.formatVersion)
    ensures Get(Object(ManifestMembers(m)), "abp_version") == String(m.abpVersion)
    ensures Get(Object(ManifestMembers(m)), "created_at_utc") == String(m.createdAtUtc)
    ensures Get(Object(ManifestMembers(m)), "mode") == String(m.mode)
    ensures Get(Object(ManifestMembers(m)), "device") == Object(DeviceMembers(m.device))
    ensures Get(Object(ManifestMembers(m)), "shared_storage_included") == Bool(m.sharedStorageIncluded)
    ensures Get(Object(ManifestMembers(m)), "shared_storage_is_directory") == Bool(m.sharedStorageIsDirectory)
  {
    hide Lookup, KeysDiffer, DeviceMembers, Captures, Exports, Packages;
    ManifestKeysDiffer(m);
    LooksUp(ManifestMembers(m), 0);
    LooksUp(ManifestMembers(m), 1);
    LooksUp(ManifestMembers(m), 2);
    LooksUp(ManifestMembers(m), 3);
    LooksUp(ManifestMembers(m), 4);
    LooksUp(ManifestMembers(m), 5);
    LooksUp(ManifestMembers(m), 6);
  }

  lemma ManifestArchives(m: Manifest)
    ensures Get(Object(ManifestMembers(m)), "shared_storage_archive") == String(m.sharedStorageArchive)
    ensures Get(Object(ManifestMembers(m)), "shared_storage_archive_bytes") == Number(m.sharedStorageArchiveBytes)
    ensures Get(Object(ManifestMembers(m)), "shared_storage_archive_sha256") == String(m.sharedStorageArchiveSha256)
    ensures Get(Object(ManifestMembers(m)), "legacy_adb_backup_file") == String(m.legacyAdbBackupFile)
    ensures Get(Object(ManifestMembers(m)), "filesystem_captures") == Array(Captures(m.filesystemCaptures))
    ensures Get(Object(ManifestMembers(m)), "personal_data_exports") == Array(Exports(m.personalDataExports))
    ensures Get(Object(ManifestMembers(m)), "packages") == Array(Packages(m.packages))
  {
    hide Lookup, KeysDiffer, DeviceMembers, Captures, Exports, Packages;
    ManifestKeysDiffer(m);
    LooksUp(ManifestMembers(m), 7);
    LooksUp(ManifestMembers(m), 8);
    LooksUp(ManifestMembers(m), 9);
    LooksUp(ManifestMembers(m), 10);
    LooksUp(ManifestMembers(m), 11);
    LooksUp(ManifestMembers(m), 12);
    LooksUp(ManifestMembers(m), 13);
  }

  lemma ManifestReads(m: Manifest, cast: Cast)
    requires ManifestFits(m)
    ensures ManifestFrom(Object(ManifestMembers(m)), cast) == m
  {
    hide Get, ManifestMembers, DeviceMembers, Captures, Exports, Packages, DeviceFrom, CapturesFrom, ExportsFrom,
         PackagesFrom, PackageFits;
    ManifestFields(m);
    ManifestArchives(m);
    DeviceReads(m.device, cast);
    CapturesRead(m.filesystemCaptures, cast);
    ExportsRead(m.personalDataExports, cast);
    PackagesRead(m.packages, m.mode, cast);
  }

  // ---------------------------------------------------------------- the document

  /** What the JSON round trip asks of a value, for a value of the given nesting. */
  predicate Plain(v: Value, nesting: nat) {
    AllExact(v) && DistinctKeys(v) && Nesting(v) <= nesting
  }

  predicate PlainMembers(members: seq<Member>, nesting: nat) {
    forall i :: 0 <= i < |members| ==> Plain(members[i].value, nesting)
  }

  lemma {:induction false} MembersNesting(members: seq<Member>, nesting: nat)
    requires PlainMembers(members, nesting)
    ensures NestingOfMembers(members) <= nesting
    decreases |members|
  {
    if members != [] { MembersNesting(members[1..], nesting); }
  }

  lemma {:induction false} ItemsNesting(items: seq<Value>, nesting: nat)
    requires forall i :: 0 <= i < |items| ==> Plain(items[i], nesting)
    ensures NestingOfItems(items) <= nesting
    decreases |items|
  {
    if items != [] { ItemsNesting(items[1..], nesting); }
  }

  lemma PlainObject(members: seq<Member>, nesting: nat)
    requires PlainMembers(members, nesting) && KeysDiffer(members)
    ensures Plain(Object(members), nesting + 1)
  {
    hide NestingOfMembers;
    MembersNesting(members, nesting);
  }

  lemma PlainArray(items: seq<Value>, nesting: nat)
    requires forall i :: 0 <= i < |items| ==> Plain(items[i], nesting)
    ensures Plain(Array(items), nesting + 1)
  {
    hide NestingOfItems;
    ItemsNesting(items, nesting);
  }

  lemma PlainScalar(v: Value, nesting: nat)
    requires v.Null? || v.Bool? || v.String? || (v.Number? && -MAX_EXACT < v.n < MAX_EXACT)
    ensures Plain(v, nesting)
  {
  }

  lemma PackagePlain(p: PackageEntry)
    requires PackageFits(p)
    ensures Plain(Object(PackageMembers(p)), 2)
  {
    hide Plain;
    var members := PackageMembers(p);
    forall i | 0 <= i < |members| ensures Plain(members[i].value, 1) {
      if i == 3 {
        var strings := Strings(p.apkFiles);
        forall j | 0 <= j < |strings| ensures Plain(strings[j], 0) { PlainScalar(strings[j], 0); }
        PlainArray(strings, 0);
      } else {
        PlainScalar(members[i].value, 1);
      }
    }
    PackageKeysDiffer(p);
    PlainObject(members, 1);
  }

  lemma DevicePlain(d: Device)
    requires Int32(d.sdkInt)
    ensures Plain(Object(DeviceMembers(d)), 1)
  {
    var members := DeviceMembers(d);
    forall i | 0 <= i < |members| ensures Plain(members[i].value, 0) { PlainScalar(members[i].value, 0); }
    DeviceKeysDiffer(d);
    PlainObject(members, 0);
  }

  lemma CapturePlain(c: FilesystemCapture)
    requires Size(c.size)
    ensures Plain(Object(CaptureMembers(c)), 1)
  {
    var members := CaptureMembers(c);
    forall i | 0 <= i < |members| ensures Plain(members[i].value, 0) { PlainScalar(members[i].value, 0); }
    CaptureKeysDiffer(c);
    PlainObject(members, 0);
  }

  lemma ExportPlain(e: PersonalExport)
    requires Size(e.size) && Int32(e.itemCount)
    ensures Plain(Object(ExportMembers(e)), 1)
  {
    var members := ExportMembers(e);
    forall i | 0 <= i < |members| ensures Plain(members[i].value, 0) { PlainScalar(members[i].value, 0); }
    ExportKeysDiffer(e);
    PlainObject(members, 0);
  }

  lemma ListsPlain(m: Manifest)
    requires ManifestFits(m)
    ensures Plain(Array(Captures(m.filesystemCaptures)), 2)
    ensures Plain(Array(Exports(m.personalDataExports)), 2)
    ensures Plain(Array(Packages(m.packages)), 3)
  {
    hide Plain, CaptureMembers, ExportMembers, PackageMembers, PackageFits;
    forall i | 0 <= i < |m.filesystemCaptures| ensures Plain(Captures(m.filesystemCaptures)[i], 1) {
      CapturePlain(m.filesystemCaptures[i]);
    }
    forall i | 0 <= i < |m.personalDataExports| ensures Plain(Exports(m.personalDataExports)[i], 1) {
      ExportPlain(m.personalDataExports[i]);
    }
    forall i | 0 <= i < |m.packages| ensures Plain(Packages(m.packages)[i], 2) { PackagePlain(m.packages[i]); }
    PlainArray(Captures(m.filesystemCaptures), 1);
    PlainArray(Exports(m.personalDataExports), 1);
    PlainArray(Packages(m.packages), 2);
  }

  lemma PlainDeeper(v: Value, nesting: nat, more: nat)
    requires Plain(v, nesting) && nesting <= more
    ensures Plain(v, more)
  {
  }

  lemma ManifestPlain(m: Manifest)
    requires ManifestFits(m)
    ensures Plain(Object(ManifestMembers(m)), 4)
  {
    hide Plain, DeviceMembers, Captures, Exports, Packages;
    ListsPlain(m);
    DevicePlain(m.device);
    PlainDeeper(Object(DeviceMembers(m.device)), 1, 3);
    PlainDeeper(Array(Captures(m.filesystemCaptures)), 2, 3);
    PlainDeeper(Array(Exports(m.personalDataExports)), 2, 3);
    var members := ManifestMembers(m);
    forall i | 0 <= i < |members| && i != 4 && i < 11 ensures Plain(members[i].value, 3) {
      PlainScalar(members[i].value, 3);
    }
    ManifestKeysDiffer(m);
    PlainObject(members, 3);
  }

  /** The text `toJson` returns. */
  function ToJson(m: Manifest): string
    requires ManifestFits(m)
  {
    ManifestPlain(m);
    Dump(Object(ManifestMembers(m)), 2, 0)
  }

  /** Every field of a manifest survives being written and read. */
  lemma FromJsonUndoesToJson(m: Manifest, cast: Cast)
    requires ManifestFits(m)
    ensures FromJson(ToJson(m), cast) == Loaded(m)
  {
    hide ManifestMembers, Dump, ParseDocument, ManifestFrom;
    ManifestPlain(m);
    ParseUndoesDump(Object(ManifestMembers(m)), 2);
    ManifestReads(m, cast);
  }

  /** An entry of a version 1 document, which has no `data_capture_method`, loads with the method its
      shape implies; one that has it loads with the method it names. */
  lemma MethodLoaded(members: seq<Member>, mode: string, named: CaptureMethod, cast: Cast)
    ensures !HasKey(members, "data_capture_method") ==>
              var p := PackageFrom(Object(members), mode, cast);
              (p.dataCaptureMethod == NotCaptured <==>
                 !p.dataIncluded || (p.dataArchive == "" && mode != "standard")) &&
              (p.dataCaptureMethod == RootTar <==> p.dataIncluded && p.dataArchive != "") &&
              (p.dataCaptureMethod == LegacyAdbBackup <==>
                 p.dataIncluded && p.dataArchive == "" && mode == "standard")
    ensures HasKey(members, "data_capture_method") &&
            Lookup(members, "data_capture_method") == String(CaptureMethodName(named)) ==>
              PackageFrom(Object(members), mode, cast).dataCaptureMethod == named
  {
    hide Lookup, CaptureMethodName, CaptureMethodFromName;
    CaptureMethodReads(named);
  }

  /** What is not there, or not of the type it should be, reads as nothing of that type. */
  lemma ReadsAsNothing(v: Value, default: int, cast: Cast)
    ensures !v.String? ==> AsString(v) == ""
    ensures !v.Bool? ==> !AsBool(v)
    ensures !v.Number? && !v.OtherNumber? ==> AsInt(v, default, cast) == default
    ensures v.OtherNumber? ==> AsInt(v, default, cast) == cast(v.literal)
    ensures !v.Array? ==> Items(v) == []
    ensures !v.Object? ==> forall key :: Get(v, key) == Null
  {
  }

  /** A document without fields loads as a manifest of format 1 in which nothing was captured. */
  lemma NothingLoads(mode: string, cast: Cast)
    ensures ManifestFrom(Object([]), cast) ==
            Manifest(1, "", "", "", Device("", "", "", "", 0, NoRoot), false, false, "", 0, "", "", [], [], [])
    ensures PackageFrom(Object([]), mode, cast) ==
            PackageEntry("", false, false, [], false, NotCaptured, "", 0, "", "", 0, "", false, "", 0, "", "")
    ensures CaptureFrom(Object([]), cast) == FilesystemCapture("", "", 0, false, "")
    ensures ExportFrom(Object([]), cast) == PersonalExport("", "", "", 0, 0, "")
  {
    hide ToInt32, ToUnsigned, ImpliedMethod;
    NothingThere();
    SmallNumbers();
  }

  lemma NothingThere()
    ensures forall key :: Get(Object([]), key) == Null && Get(Null, key) == Null
    ensures !HasKey([], "data_capture_method") && StringsFrom([]) == []
    ensures forall mode :: ImpliedMethod(false, "", mode) == NotCaptured
  {
  }

  lemma SmallNumbers()
    ensures ToInt32(0) == 0 && ToInt32(1) == 1 && ToUnsigned(0) == 0
  {
  }

  /** The names written for the methods (and any other name is read as no method). */
  lemma MethodNames()
    ensures CaptureMethodName(RootTar) == "root_tar" && CaptureMethodName(RunAsTar) == "run_as_tar"
    ensures CaptureMethodName(LegacyAdbBackup) == "legacy_adb_backup" && CaptureMethodName(NotCaptured) == "none"
    ensures RootMethodName(AdbdRoot) == "adbd_root" && RootMethodName(SuBinary) == "su_binary"
    ensures RootMethodName(NoRoot) == "none"
    ensures forall name | name !in {"root_tar", "run_as_tar", "legacy_adb_backup"} ::
              CaptureMethodFromName(name) == NotCaptured
  {
  }
}
