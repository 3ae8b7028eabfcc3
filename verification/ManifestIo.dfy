/** Writing and reading manifests as the program does it: objects built by one `set` after another,
    lists by `push_back` in loops. */
module ManifestIo {
  import opened Json
  import opened Manifest
  import opened JsonRoundTrip
  import opened ManifestRoundTrip
  import opened JsonParser
  import JsonPrinter

  // ---------------------------------------------------------------- writing

  method DeviceToJson(d: Device) returns (v: Value)
    ensures v == Object(DeviceMembers(d))
  {
    hide SetMember, KeysDiffer, RootMethodName;
    ghost var all := DeviceMembers(d);
    DeviceKeysDiffer(d);
    SetsNext(all, 0);
    SetsNext(all, 1);
    SetsNext(all, 2);
    SetsNext(all, 3);
    SetsNext(all, 4);
    SetsNext(all, 5);
    SetsNext(all, 6);
    var builder := new ObjectBuilder();
    builder.Set("serial", String(d.serial));
    builder.Set("model", String(d.model));
    builder.Set("manufacturer", String(d.manufacturer));
    builder.Set("android_release", String(d.androidRelease));
    builder.Set("sdk_int", Number(d.sdkInt));
    builder.Set("rooted", Bool(d.root != NoRoot));
    builder.Set("root_method", String(RootMethodName(d.root)));
    assert all[..|all|] == all;
    return Object(builder.members);
  }

  method CaptureToJson(c: FilesystemCapture) returns (v: Value)
    ensures v == Object(CaptureMembers(c))
  {
    hide SetMember, KeysDiffer;
    ghost var all := CaptureMembers(c);
    CaptureKeysDiffer(c);
    SetsNext(all, 0);
    SetsNext(all, 1);
    SetsNext(all, 2);
    SetsNext(all, 3);
    SetsNext(all, 4);
    var builder := new ObjectBuilder();
    builder.Set("device_path", String(c.devicePath));
    builder.Set("local_path", String(c.localPath));
    builder.Set("bytes", Number(c.size));
    builder.Set("complete", Bool(c.complete));
    builder.Set("note", String(c.note));
    assert all[..|all|] == all;
    return Object(builder.members);
  }

  method ExportToJson(e: PersonalExport) returns (v: Value)
    ensures v == Object(ExportMembers(e))
  {
    hide SetMember, KeysDiffer;
    ghost var all := ExportMembers(e);
    ExportKeysDiffer(e);
    SetsNext(all, 0);
    SetsNext(all, 1);
    SetsNext(all, 2);
    SetsNext(all, 3);
    SetsNext(all, 4);
    SetsNext(all, 5);
    var builder := new ObjectBuilder();
    builder.Set("kind", String(e.kind));
    builder.Set("format", String(e.format));
    builder.Set("local_path", String(e.localPath));
    builder.Set("item_count", Number(e.itemCount));
    builder.Set("bytes", Number(e.size));
    builder.Set("sha256", String(e.sha256));
    assert all[..|all|] == all;
    return Object(builder.members);
  }

  method ApkFilesToJson(p: PackageEntry) returns (apkFiles: seq<Value>)
    ensures apkFiles == Strings(p.apkFiles)
  {
    apkFiles := [];
    for i := 0 to |p.apkFiles|
      invariant apkFiles == Strings(p.apkFiles[..i])
    {
      apkFiles := apkFiles + [String(p.apkFiles[i])];
    }
    assert p.apkFiles[..|p.apkFiles|] == p.apkFiles;
  }

  /** What the entry says of the package and its APK files. */
  method SetPackageApks(builder: ObjectBuilder, p: PackageEntry)
    requires builder.members == PackageMembers(p)[..0]
    modifies builder
    ensures builder.members == PackageMembers(p)[..5]
  {
    hide SetMember, KeysDiffer, CaptureMethodName, Strings;
    var apkFiles := ApkFilesToJson(p);
    ghost var all := PackageMembers(p);
    PackageKeysDiffer(p);
    SetsNext(all, 0);
    SetsNext(all, 1);
    SetsNext(all, 2);
    SetsNext(all, 3);
    SetsNext(all, 4);
    builder.Set("name", String(p.name));
    builder.Set("system_app", Bool(p.isSystemApp));
    builder.Set("apk_included", Bool(p.apkIncluded));
    builder.Set("apk_files", Array(apkFiles));
    builder.Set("data_included", Bool(p.dataIncluded));
  }

  /** How its data was captured, and the first archive. */
  method SetPackageData(builder: ObjectBuilder, p: PackageEntry)
    requires builder.members == PackageMembers(p)[..5]
    modifies builder
    ensures builder.members == PackageMembers(p)[..9]
  {
    hide SetMember, KeysDiffer, CaptureMethodName, Strings;
    ghost var all := PackageMembers(p);
    PackageKeysDiffer(p);
    SetsNext(all, 5);
    SetsNext(all, 6);
    SetsNext(all, 7);
    SetsNext(all, 8);
    builder.Set("data_capture_method", String(CaptureMethodName(p.dataCaptureMethod)));
    builder.Set("data_archive", String(p.dataArchive));
    builder.Set("data_archive_bytes", Number(p.dataArchiveBytes));
    builder.Set("data_archive_sha256", String(p.dataArchiveSha256));
  }

  /** The device-protected data. */
  method SetPackageDeData(builder: ObjectBuilder, p: PackageEntry)
    requires builder.members == PackageMembers(p)[..9]
    modifies builder
    ensures builder.members == PackageMembers(p)[..13]
  {
    hide SetMember, KeysDiffer, CaptureMethodName, Strings;
    ghost var all := PackageMembers(p);
    PackageKeysDiffer(p);
    SetsNext(all, 9);
    SetsNext(all, 10);
    SetsNext(all, 11);
    SetsNext(all, 12);
    builder.Set("de_data_archive", String(p.deDataArchive));
    builder.Set("de_data_archive_bytes", Number(p.deDataArchiveBytes));
    builder.Set("de_data_archive_sha256", String(p.deDataArchiveSha256));
    builder.Set("external_data_included", Bool(p.externalDataIncluded));
  }

  /** The external data and the error. */
  method SetPackageRest(builder: ObjectBuilder, p: PackageEntry)
    requires builder.members == PackageMembers(p)[..13]
    modifies builder
    ensures builder.members == PackageMembers(p)[..17]
  {
    hide SetMember, KeysDiffer, CaptureMethodName, Strings;
    ghost var all := PackageMembers(p);
    PackageKeysDiffer(p);
    SetsNext(all, 13);
    SetsNext(all, 14);
    SetsNext(all, 15);
    SetsNext(all, 16);
    builder.Set("external_data_archive", String(p.externalDataArchive));
    builder.Set("external_data_archive_bytes", Number(p.externalDataArchiveBytes));
    builder.Set("external_data_archive_sha256", String(p.externalDataArchiveSha256));
    builder.Set("error", String(p.error));
  }

  method PackageToJson(p: PackageEntry) returns (v: Value)
    ensures v == Object(PackageMembers(p))
  {
    ghost var all := PackageMembers(p);
    assert |all| == 17 && all[..0] == [] && all[..17] == all;
    hide PackageMembers;
    var builder := new ObjectBuilder();
    SetPackageApks(builder, p);
    SetPackageData(builder, p);
    SetPackageDeData(builder, p);
    SetPackageRest(builder, p);
    return Object(builder.members);
  }

  method ManifestLists(m: Manifest) returns (captures: seq<Value>, exports: seq<Value>, packages: seq<Value>)
    ensures captures == Captures(m.filesystemCaptures)
    ensures exports == Exports(m.personalDataExports)
    ensures packages == Packages(m.packages)
  {
    hide CaptureMembers, ExportMembers, PackageMembers;
    captures := [];
    for i := 0 to |m.filesystemCaptures|
      invariant captures == Captures(m.filesystemCaptures[..i])
    {
      var v := CaptureToJson(m.filesystemCaptures[i]);
      captures := captures + [v];
    }
    assert m.filesystemCaptures[..|m.filesystemCaptures|] == m.filesystemCaptures;
    exports := [];
    for i := 0 to |m.personalDataExports|
      invariant exports == Exports(m.personalDataExports[..i])
    {
      var v := ExportToJson(m.personalDataExports[i]);
      exports := exports + [v];
    }
    assert m.personalDataExports[..|m.personalDataExports|] == m.personalDataExports;
    packages := [];
    for i := 0 to |m.packages|
      invariant packages == Packages(m.packages[..i])
    {
      var v := PackageToJson(m.packages[i]);
      packages := packages + [v];
    }
    assert m.packages[..|m.packages|] == m.packages;
  }

  /** The backup's own description and its device. */
  method SetHead(builder: ObjectBuilder, m: Manifest)
    requires builder.members == ManifestMembers(m)[..0]
    modifies builder
    ensures builder.members == ManifestMembers(m)[..5]
  {
    hide SetMember, KeysDiffer, DeviceMembers, Captures, Exports, Packages;
    var device := DeviceToJson(m.device);
    ghost var all := ManifestMembers(m);
    ManifestKeysDiffer(m);
    SetsNext(all, 0);
    SetsNext(all, 1);
    SetsNext(all, 2);
    SetsNext(all, 3);
    SetsNext(all, 4);
    builder.Set("format_version", Number(m.formatVersion));
    builder.Set("abp_version", String(m.abpVersion));
    builder.Set("created_at_utc", String(m.createdAtUtc));
    builder.Set("mode", String(m.mode));
    builder.Set("device", device);
  }

  /** Shared storage. */
  method SetStorage(builder: ObjectBuilder, m: Manifest)
    requires builder.members == ManifestMembers(m)[..5]
    modifies builder
    ensures builder.members == ManifestMembers(m)[..10]
  {
    hide SetMember, KeysDiffer, DeviceMembers, Captures, Exports, Packages;
    ghost var all := ManifestMembers(m);
    ManifestKeysDiffer(m);
    SetsNext(all, 5);
    SetsNext(all, 6);
    SetsNext(all, 7);
    SetsNext(all, 8);
    SetsNext(all, 9);
    builder.Set("shared_storage_included", Bool(m.sharedStorageIncluded));
    builder.Set("shared_storage_is_directory", Bool(m.sharedStorageIsDirectory));
    builder.Set("shared_storage_archive", String(m.sharedStorageArchive));
    builder.Set("shared_storage_archive_bytes", Number(m.sharedStorageArchiveBytes));
    builder.Set("shared_storage_archive_sha256", String(m.sharedStorageArchiveSha256));
  }

  /** The legacy archive and the lists. */
  method SetLists(builder: ObjectBuilder, m: Manifest)
    requires builder.members == ManifestMembers(m)[..10]
    modifies builder
    ensures builder.members == ManifestMembers(m)[..14]
  {
    hide SetMember, KeysDiffer, DeviceMembers, Captures, Exports, Packages;
    var captures, exports, packages := ManifestLists(m);
    ghost var all := ManifestMembers(m);
    ManifestKeysDiffer(m);
    SetsNext(all, 10);
    SetsNext(all, 11);
    SetsNext(all, 12);
    SetsNext(all, 13);
    builder.Set("legacy_adb_backup_file", String(m.legacyAdbBackupFile));
    builder.Set("filesystem_captures", Array(captures));
    builder.Set("personal_data_exports", Array(exports));
    builder.Set("packages", Array(packages));
  }

  method ManifestToJson(m: Manifest) returns (v: Value)
    ensures v == Object(ManifestMembers(m))
  {
    ghost var all := ManifestMembers(m);
    assert |all| == 14 && all[..0] == [] && all[..14] == all;
    hide ManifestMembers;
    var builder := new ObjectBuilder();
    SetHead(builder, m);
    SetStorage(builder, m);
    SetLists(builder, m);
    return Object(builder.members);
  }

  /** The document's text, as `toJson` returns it. */
  method WriteText(m: Manifest) returns (text: string)
    requires ManifestFits(m)
    ensures text == ToJson(m)
  {
    hide ManifestMembers;
    var root := ManifestToJson(m);
    ManifestPlain(m);
    var printer := new JsonPrinter.Printer(2);
    printer.DumpTo(root, 0);
    assert "" + Dump(root, 2, 0) == Dump(root, 2, 0);
    return printer.out;
  }

  // ---------------------------------------------------------------- reading

  lemma CapturesStep(values: seq<Value>, cast: Cast, i: nat)
    requires i < |values|
    ensures CapturesFrom(values[i..], cast) ==
            (if values[i].Object? then [CaptureFrom(values[i], cast)] else []) + CapturesFrom(values[i + 1..], cast)
  {
    hide CaptureFrom;
    assert values[i..][1..] == values[i + 1..];
  }

  lemma NoCapturesLeft(values: seq<Value>, cast: Cast)
    ensures CapturesFrom(values[|values|..], cast) == [] && values[0..] == values
  {
  }

  method ReadCaptures(values: seq<Value>, cast: Cast) returns (captures: seq<FilesystemCapture>)
    ensures captures == CapturesFrom(values, cast)
  {
    hide CaptureFrom, CapturesFrom;
    captures := [];
    NoCapturesLeft(values, cast);
    for i := 0 to |values|
      invariant captures + CapturesFrom(values[i..], cast) == CapturesFrom(values, cast)
    {
      CapturesStep(values, cast, i);
      if !values[i].Object? { continue; }
      captures := captures + [CaptureFrom(values[i], cast)];
    }
  }

  lemma ExportsStep(values: seq<Value>, cast: Cast, i: nat)
    requires i < |values|
    ensures ExportsFrom(values[i..], cast) ==
            (if values[i].Object? then [ExportFrom(values[i], cast)] else []) + ExportsFrom(values[i + 1..], cast)
  {
    hide ExportFrom;
    assert values[i..][1..] == values[i + 1..];
  }

  lemma NoExportsLeft(values: seq<Value>, cast: Cast)
    ensures ExportsFrom(values[|values|..], cast) == [] && values[0..] == values
  {
  }

  method ReadExports(values: seq<Value>, cast: Cast) returns (exports: seq<PersonalExport>)
    ensures exports == ExportsFrom(values, cast)
  {
    hide ExportFrom, ExportsFrom;
    exports := [];
    NoExportsLeft(values, cast);
    for i := 0 to |values|
      invariant exports + ExportsFrom(values[i..], cast) == ExportsFrom(values, cast)
    {
      ExportsStep(values, cast, i);
      if !values[i].Object? { continue; }
      exports := exports + [ExportFrom(values[i], cast)];
    }
  }

  lemma PackagesStep(values: seq<Value>, mode: string, cast: Cast, i: nat)
    requires i < |values|
    ensures PackagesFrom(values[i..], mode, cast) ==
            (if values[i].Object? then [PackageFrom(values[i], mode, cast)] else []) +
            PackagesFrom(values[i + 1..], mode, cast)
  {
    hide PackageFrom;
    assert values[i..][1..] == values[i + 1..];
  }

  lemma NoPackagesLeft(values: seq<Value>, mode: string, cast: Cast)
    ensures PackagesFrom(values[|values|..], mode, cast) == [] && values[0..] == values
  {
  }

  method ReadPackages(values: seq<Value>, mode: string, cast: Cast) returns (packages: seq<PackageEntry>)
    ensures packages == PackagesFrom(values, mode, cast)
  {
    hide PackageFrom, PackagesFrom;
    packages := [];
    NoPackagesLeft(values, mode, cast);
    for i := 0 to |values|
      invariant packages + PackagesFrom(values[i..], mode, cast) == PackagesFrom(values, mode, cast)
    {
      PackagesStep(values, mode, cast, i);
      if !values[i].Object? { continue; }
      packages := packages + [PackageFrom(values[i], mode, cast)];
    }
  }

  method ReadText(text: string, cast: Cast) returns (load: Load)
    ensures load == FromJson(text, cast)
  {
    hide ParseDocument, Get, DeviceFrom;
    var parser := new Parser(text);
    var parsed := parser.ReadDocument();
    match parsed {
      case Failure(error, at) => return Refused(BadJson(error, |text| - at));
      case Success(root) =>
        if !root.Object? { return Refused(NotAnObject); }
        var captures := ReadCaptures(Items(Get(root, "filesystem_captures")), cast);
        var exports := ReadExports(Items(Get(root, "personal_data_exports")), cast);
        var packages := ReadPackages(Items(Get(root, "packages")), AsString(Get(root, "mode")), cast);
        return Loaded(Manifest(
          ToInt32(AsInt(Get(root, "format_version"), 1, cast)), AsString(Get(root, "abp_version")),
          AsString(Get(root, "created_at_utc")), AsString(Get(root, "mode")), DeviceFrom(Get(root, "device"), cast),
          AsBool(Get(root, "shared_storage_included")), AsBool(Get(root, "shared_storage_is_directory")),
          AsString(Get(root, "shared_storage_archive")),
          ToUnsigned(AsInt(Get(root, "shared_storage_archive_bytes"), 0, cast)),
          AsString(Get(root, "shared_storage_archive_sha256")), AsString(Get(root, "legacy_adb_backup_file")),
          captures, exports, packages));
    }
  }

  /** The manifest a backup writes is the one a restore reads. */
  method SaveAndLoad(m: Manifest, cast: Cast) returns (again: Manifest)
    requires ManifestFits(m)
    ensures again == m
  {
    hide ToJson, FromJson;
    var text := WriteText(m);
    var load := ReadText(text, cast);
    FromJsonUndoesToJson(m, cast);
    return load.manifest;
  }
}
