/** The backup manifest and its JSON form. */
module Manifest {
  import opened Json

  datatype RootMethod = NoRoot | AdbdRoot | SuBinary
  datatype Device = Device(serial: string, model: string, manufacturer: string, androidRelease: string, sdkInt: int,
                           root: RootMethod)

  datatype CaptureMethod = NotCaptured | RootTar | RunAsTar | LegacyAdbBackup

  datatype PackageEntry = PackageEntry(
    name: string, isSystemApp: bool,
    apkIncluded: bool, apkFiles: seq<string>,
    dataIncluded: bool, dataCaptureMethod: CaptureMethod,
    dataArchive: string, dataArchiveBytes: int, dataArchiveSha256: string,
    deDataArchive: string, deDataArchiveBytes: int, deDataArchiveSha256: string,
    externalDataIncluded: bool, externalDataArchive: string, externalDataArchiveBytes: int,
    externalDataArchiveSha256: string,
    error: string)

  datatype FilesystemCapture = FilesystemCapture(devicePath: string, localPath: string, size: int, complete: bool,
                                                 note: string)
  datatype PersonalExport = PersonalExport(kind: string, format: string, localPath: string, itemCount: int, size: int,
                                           sha256: string)

  datatype Manifest = Manifest(
    formatVersion: int, abpVersion: string, createdAtUtc: string, mode: string, device: Device,
    sharedStorageIncluded: bool, sharedStorageIsDirectory: bool, sharedStorageArchive: string,
    sharedStorageArchiveBytes: int, sharedStorageArchiveSha256: string, legacyAdbBackupFile: string,
    filesystemCaptures: seq<FilesystemCapture>, personalDataExports: seq<PersonalExport>,
    packages: seq<PackageEntry>)

  // ---------------------------------------------------------------- what can be written

  predicate Size(n: int) { 0 <= n < MAX_EXACT }
  predicate Int32(n: int) { -0x8000_0000 <= n < 0x8000_0000 }

  predicate PackageFits(p: PackageEntry) {
    Size(p.dataArchiveBytes) && Size(p.deDataArchiveBytes) && Size(p.externalDataArchiveBytes)
  }

  predicate ManifestFits(m: Manifest) {
    && Int32(m.formatVersion) && Int32(m.device.sdkInt) && Size(m.sharedStorageArchiveBytes)
    && (forall i :: 0 <= i < |m.filesystemCaptures| ==> Size(m.filesystemCaptures[i].size))
    && (forall i :: 0 <= i < |m.personalDataExports| ==>
          Size(m.personalDataExports[i].size) && Int32(m.personalDataExports[i].itemCount))
    && (forall i :: 0 <= i < |m.packages| ==> PackageFits(m.packages[i]))
  }

  // ---------------------------------------------------------------- names of methods

  function CaptureMethodName(m: CaptureMethod): string {
    match m
    case RootTar => "root_tar"
    case RunAsTar => "run_as_tar"
    case LegacyAdbBackup => "legacy_adb_backup"
    case NotCaptured => "none"
  }

  function CaptureMethodFromName(name: string): CaptureMethod {
    if name == "root_tar" then RootTar
    else if name == "run_as_tar" then RunAsTar
    else if name == "legacy_adb_backup" then LegacyAdbBackup
    else NotCaptured
  }

  function RootMethodName(m: RootMethod): string {
    match m
    case AdbdRoot => "adbd_root"
    case SuBinary => "su_binary"
    case NoRoot => "none"
  }

  function RootMethodFromName(name: string): RootMethod {
    if name == "adbd_root" then AdbdRoot else if name == "su_binary" then SuBinary else NoRoot
  }

  // ---------------------------------------------------------------- writing

  function DeviceMembers(d: Device): seq<Member> {
    [Member("serial", String(d.serial)),
     Member("model", String(d.model)),
     Member("manufacturer", String(d.manufacturer)),
     Member("android_release", String(d.androidRelease)),
     Member("sdk_int", Number(d.sdkInt)),
     Member("rooted", Bool(d.root != NoRoot)),
     Member("root_method", String(RootMethodName(d.root)))]
  }

  function Strings(texts: seq<string>): seq<Value> {
    seq(|texts|, i requires 0 <= i < |texts| => String(texts[i]))
  }

  function PackageMembers(p: PackageEntry): seq<Member> {
    [Member("name", String(p.name)),
     Member("system_app", Bool(p.isSystemApp)),
     Member("apk_included", Bool(p.apkIncluded)),
     Member("apk_files", Array(Strings(p.apkFiles))),
     Member("data_included", Bool(p.dataIncluded)),
     Member("data_capture_method", String(CaptureMethodName(p.dataCaptureMethod))),
     Member("data_archive", String(p.dataArchive)),
     Member("data_archive_bytes", Number(p.dataArchiveBytes)),
     Member("data_archive_sha256", String(p.dataArchiveSha256)),
     Member("de_data_archive", String(p.deDataArchive)),
     Member("de_data_archive_bytes", Number(p.deDataArchiveBytes)),
     Member("de_data_archive_sha256", String(p.deDataArchiveSha256)),
     Member("external_data_included", Bool(p.externalDataIncluded)),
     Member("external_data_archive", String(p.externalDataArchive)),
     Member("external_data_archive_bytes", Number(p.externalDataArchiveBytes)),
     Member("external_data_archive_sha256", String(p.externalDataArchiveSha256)),
     Member("error", String(p.error))]
  }

  function CaptureMembers(c: FilesystemCapture): seq<Member> {
    [Member("device_path", String(c.devicePath)),
     Member("local_path", String(c.localPath)),
     Member("bytes", Number(c.size)),
     Member("complete", Bool(c.complete)),
     Member("note", String(c.note))]
  }

  function ExportMembers(e: PersonalExport): seq<Member> {
    [Member("kind", String(e.kind)),
     Member("format", String(e.format)),
     Member("local_path", String(e.localPath)),
     Member("item_count", Number(e.itemCount)),
     Member("bytes", Number(e.size)),
     Member("sha256", String(e.sha256))]
  }

  function Captures(captures: seq<FilesystemCapture>): seq<Value> {
    seq(|captures|, i requires 0 <= i < |captures| => Object(CaptureMembers(captures[i])))
  }

  function Exports(exports: seq<PersonalExport>): seq<Value> {
    seq(|exports|, i requires 0 <= i < |exports| => Object(ExportMembers(exports[i])))
  }

  function Packages(packages: seq<PackageEntry>): seq<Value> {
    seq(|packages|, i requires 0 <= i < |packages| => Object(PackageMembers(packages[i])))
  }

  function ManifestMembers(m: Manifest): seq<Member> {
    [Member("format_version", Number(m.formatVersion)),
     Member("abp_version", String(m.abpVersion)),
     Member("created_at_utc", String(m.createdAtUtc)),
     Member("mode", String(m.mode)),
     Member("device", Object(DeviceMembers(m.device))),
     Member("shared_storage_included", Bool(m.sharedStorageIncluded)),
     Member("shared_storage_is_directory", Bool(m.sharedStorageIsDirectory)),
     Member("shared_storage_archive", String(m.sharedStorageArchive)),
     Member("shared_storage_archive_bytes", Number(m.sharedStorageArchiveBytes)),
     Member("shared_storage_archive_sha256", String(m.sharedStorageArchiveSha256)),
     Member("legacy_adb_backup_file", String(m.legacyAdbBackupFile)),
     Member("filesystem_captures", Array(Captures(m.filesystemCaptures))),
     Member("personal_data_exports", Array(Exports(m.personalDataExports))),
     Member("packages", Array(Packages(m.packages)))]
  }

  // ---------------------------------------------------------------- reading

  function Get(v: Value, key: string): Value {
    if v.Object? then Lookup(v.members, key) else Null
  }

  function AsString(v: Value): string { if v.String? then v.text else "" }
  function AsBool(v: Value): bool { v.Bool? && v.truth }

  /** The whole number the double of a literal is cut to: how doubles are read and cut is not modelled. */
  type Cast = string -> int

  function AsInt(v: Value, default: int, cast: Cast): int {
    if v.Number? then v.n else if v.OtherNumber? then cast(v.literal) else default
  }

  function Items(v: Value): seq<Value> { if v.Array? then v.items else [] }

  /** `static_cast<int>` of a `long long`, and `static_cast<unsigned long long>` of one. */
  function ToInt32(n: int): (r: int)
    ensures -0x8000_0000 <= r < 0x8000_0000 && (n - r) % 0x1_0000_0000 == 0
  {
    var low := n % 0x1_0000_0000;
    if low < 0x8000_0000 then low else low - 0x1_0000_0000
  }

  function ToUnsigned(n: int): (r: int)
    ensures 0 <= r < 0x1_0000_0000_0000_0000 && (n - r) % 0x1_0000_0000_0000_0000 == 0
  {
    n % 0x1_0000_0000_0000_0000
  }

  function DeviceFrom(v: Value, cast: Cast): Device {
    Device(AsString(Get(v, "serial")), AsString(Get(v, "model")), AsString(Get(v, "manufacturer")),
           AsString(Get(v, "android_release")), ToInt32(AsInt(Get(v, "sdk_int"), 0, cast)),
           RootMethodFromName(AsString(Get(v, "root_method"))))
  }

  function StringsFrom(values: seq<Value>): seq<string> {
    seq(|values|, i requires 0 <= i < |values| => AsString(values[i]))
  }

  /** The method of an entry without `data_capture_method`: what its shape implies. */
  function ImpliedMethod(dataIncluded: bool, dataArchive: string, mode: string): CaptureMethod {
    if !dataIncluded then NotCaptured
    else if dataArchive != "" then RootTar
    else if mode == "standard" then LegacyAdbBackup
    else NotCaptured
  }

  function PackageFrom(v: Value, mode: string, cast: Cast): PackageEntry {
    PackageEntry(
      AsString(Get(v, "name")), AsBool(Get(v, "system_app")),
      AsBool(Get(v, "apk_included")), StringsFrom(Items(Get(v, "apk_files"))),
      AsBool(Get(v, "data_included")),
      if v.Object? && HasKey(v.members, "data_capture_method")
      then CaptureMethodFromName(AsString(Get(v, "data_capture_method")))
      else ImpliedMethod(AsBool(Get(v, "data_included")), AsString(Get(v, "data_archive")), mode),
      AsString(Get(v, "data_archive")), ToUnsigned(AsInt(Get(v, "data_archive_bytes"), 0, cast)),
      AsString(Get(v, "data_archive_sha256")),
      AsString(Get(v, "de_data_archive")), ToUnsigned(AsInt(Get(v, "de_data_archive_bytes"), 0, cast)),
      AsString(Get(v, "de_data_archive_sha256")),
      AsBool(Get(v, "external_data_included")), AsString(Get(v, "external_data_archive")),
      ToUnsigned(AsInt(Get(v, "external_data_archive_bytes"), 0, cast)),
      AsString(Get(v, "external_data_archive_sha256")),
      AsString(Get(v, "error")))
  }

  function CaptureFrom(v: Value, cast: Cast): FilesystemCapture {
    FilesystemCapture(AsString(Get(v, "device_path")), AsString(Get(v, "local_path")),
                      ToUnsigned(AsInt(Get(v, "bytes"), 0, cast)), AsBool(Get(v, "complete")), AsString(Get(v, "note")))
  }

  function ExportFrom(v: Value, cast: Cast): PersonalExport {
    PersonalExport(AsString(Get(v, "kind")), AsString(Get(v, "format")), AsString(Get(v, "local_path")),
                   ToInt32(AsInt(Get(v, "item_count"), 0, cast)), ToUnsigned(AsInt(Get(v, "bytes"), 0, cast)),
                   AsString(Get(v, "sha256")))
  }

  /** The elements that are objects: anything else in these lists is passed over. */
  function CapturesFrom(values: seq<Value>, cast: Cast): seq<FilesystemCapture> {
    if values == [] then []
    else (if values[0].Object? then [CaptureFrom(values[0], cast)] else []) + CapturesFrom(values[1..], cast)
  }

  function ExportsFrom(values: seq<Value>, cast: Cast): seq<PersonalExport> {
    if values == [] then []
    else (if values[0].Object? then [ExportFrom(values[0], cast)] else []) + ExportsFrom(values[1..], cast)
  }

  function PackagesFrom(values: seq<Value>, mode: string, cast: Cast): seq<PackageEntry> {
    if values == [] then []
    else
      (if values[0].Object? then [PackageFrom(values[0], mode, cast)] else []) + PackagesFrom(values[1..], mode, cast)
  }

  datatype LoadError = BadJson(error: Error, left: nat) | NotAnObject
  datatype Load = Loaded(manifest: Manifest) | Refused(error: LoadError)

  function ManifestFrom(v: Value, cast: Cast): Manifest {
    var mode := AsString(Get(v, "mode"));
    Manifest(ToInt32(AsInt(Get(v, "format_version"), 1, cast)), AsString(Get(v, "abp_version")),
             AsString(Get(v, "created_at_utc")), mode, DeviceFrom(Get(v, "device"), cast),
             AsBool(Get(v, "shared_storage_included")), AsBool(Get(v, "shared_storage_is_directory")),
             AsString(Get(v, "shared_storage_archive")),
             ToUnsigned(AsInt(Get(v, "shared_storage_archive_bytes"), 0, cast)),
             AsString(Get(v, "shared_storage_archive_sha256")), AsString(Get(v, "legacy_adb_backup_file")),
             CapturesFrom(Items(Get(v, "filesystem_captures")), cast),
             ExportsFrom(Items(Get(v, "personal_data_exports")), cast),
             PackagesFrom(Items(Get(v, "packages")), mode, cast))
  }

  function FromJson(text: string, cast: Cast): Load {
    match ParseDocument(text)
    case Fail(error, left) => Refused(BadJson(error, left))
    case Ok(root, _) => if root.Object? then Loaded(ManifestFrom(root, cast)) else Refused(NotAnObject)
  }
}
