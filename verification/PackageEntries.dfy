/** Package entries of a manifest, as the backends and the workflow use them. */
module PackageEntries {
  import opened Wrappers
  import opened AndroidDevice
  import opened PackageNames
  import opened Manifest

  /** The archive a manifest entry names is the whole directory, as it is on the phone, with its digest if that
      could be taken. */
  predicate Captured(files: Files, dirs: Directories, root: Root, name: string, path: string, sum: string, m: Measure) {
    && path in files && (root, name) in dirs && files[path] == Archive(name, dirs[(root, name)])
    && sum == ChecksumOrEmpty(path, files[path], m)
  }

  predicate NoData(e: PackageEntry) {
    && !e.dataIncluded && e.dataCaptureMethod == NotCaptured
    && e.dataArchive == "" && e.dataArchiveBytes == 0 && e.dataArchiveSha256 == ""
    && e.deDataArchive == "" && e.deDataArchiveBytes == 0 && e.deDataArchiveSha256 == ""
  }

  /** Data fields and error aside, an entry is as it was, and an error it had is not lost. */
  predicate OnlyData(before: PackageEntry, after: PackageEntry) {
    && after == before.(dataIncluded := after.dataIncluded, dataCaptureMethod := after.dataCaptureMethod,
                        dataArchive := after.dataArchive, dataArchiveBytes := after.dataArchiveBytes,
                        dataArchiveSha256 := after.dataArchiveSha256, deDataArchive := after.deDataArchive,
                        deDataArchiveBytes := after.deDataArchiveBytes,
                        deDataArchiveSha256 := after.deDataArchiveSha256, error := after.error)
    && (after.error == "" ==> before.error == "")
  }

  /** The error aside, an entry is as it was, and an error it had is not lost. */
  predicate OnlyError(before: PackageEntry, after: PackageEntry) {
    after == before.(error := after.error) && (after.error == "" ==> before.error == "")
  }

  function Names(entries: seq<PackageEntry>): (names: seq<string>)
    ensures |names| == |entries|
    ensures forall i | 0 <= i < |names| :: names[i] == entries[i].name
  {
    seq(|entries|, i requires 0 <= i < |entries| => entries[i].name)
  }

  predicate Distinct(names: seq<string>) {
    forall i, j | 0 <= i < j < |names| :: names[i] != names[j]
  }

  /** No archive of one package is named like an archive of another. */
  predicate NoClash(names: seq<string>) {
    && Distinct(names)
    && forall i, j | 0 <= i < |names| && 0 <= j < |names| :: names[i] != names[j] + ".de"
  }

  /** A file is as it was, or a digest was recorded for it that tells the two apart. */
  predicate Told(was: Blob, now: Blob, sum: string, m: Measure) {
    now == was || (sum != "" && m.digest(now) != m.digest(was))
  }

  /** The archives of an entry are as the backup left them, or their digests tell that they are not. */
  predicate Guarded(e: PackageEntry, files: Files, later: Files, m: Measure) {
    && (e.dataArchive in files && e.dataArchive in later ==>
          Told(files[e.dataArchive], later[e.dataArchive], e.dataArchiveSha256, m))
    && (e.deDataArchive in files && e.deDataArchive in later ==>
          Told(files[e.deDataArchive], later[e.deDataArchive], e.deDataArchiveSha256, m))
  }

  /** What a restore starts from: the packages asked for, the backup directory, the phone and its answers. */
  datatype Start = Start(filter: seq<string>, files: Files, dirs: Directories, answers: Answers, m: Measure)

  const LEGACY := "legacy_backup.ab"

  /** Only archives of app data have been written or removed. */
  ghost predicate OnlyArchives(now: Files, was: Files) {
    forall path | !("data/" <= path) && path != LEGACY ::
      (path in now <==> path in was) && (path in now ==> now[path] == was[path])
  }

  /** The first entry with a name. */
  method Find(entries: seq<PackageEntry>, name: string) returns (found: Option<nat>)
    ensures found.Some? ==> found.value < |entries| && entries[found.value].name == name
    ensures found.Some? ==> forall j | 0 <= j < found.value :: entries[j].name != name
    ensures found.None? ==> forall j | 0 <= j < |entries| :: entries[j].name != name
  {
    for i := 0 to |entries|
      invariant forall j | 0 <= j < i :: entries[j].name != name
    {
      if entries[i].name == name { return Some(i); }
    }
    return None;
  }
}
