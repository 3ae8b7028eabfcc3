/** The two sides of a backup: the phone, as far as adb lets the program see and change it, and the
    backup directory. Every call that goes through adb may fail, and how each one comes out is a parameter. */
module AndroidDevice {
  import opened Wrappers

  /** The two per-user roots: /data/data and /data/user_de/0. */
  datatype Root = CredentialEncrypted | DeviceProtected

  datatype Node = Node(content: string, owner: string)
  datatype Directory = Directory(owner: string, files: map<string, Node>)
  type Directories = map<(Root, string), Directory>

  /** What a file of the backup directory holds: nothing, an archive of one directory (its name, its owner
      and its files), the data of some packages in one `adb backup` archive, or something else. */
  datatype Blob = Empty | Archive(name: string, directory: Directory) | Legacy(holds: set<string>) | Other(id: nat)
  type Files = map<string, Blob>

  /** The packages whose data an `adb restore` of a file brings back. */
  function HeldBy(blob: Blob): set<string> {
    if blob.Legacy? then blob.holds else {}
  }

  /** Nothing has changed outside these keys. */
  ghost predicate SameBut<K(!new), V>(now: map<K, V>, was: map<K, V>, keys: set<K>) {
    forall k | k !in keys :: (k in now <==> k in was) && (k in now ==> now[k] == was[k])
  }

  /** A directory is as it was. */
  predicate SameAt(now: Directories, was: Directories, root: Root, name: string) {
    ((root, name) in now <==> (root, name) in was) && ((root, name) in now ==> now[(root, name)] == was[(root, name)])
  }

  lemma SameAsItself(dirs: Directories)
    ensures forall root, name :: SameAt(dirs, dirs, root, name)
  {
  }

  // ---------------------------------------------------------------- how the calls come out

  /** A run of `tar` on the phone: the whole archive; nothing, though reported as good; or a failure that
      leaves something behind. */
  datatype Tar = Whole | Silent | Broken(left: nat)

  /** Unpacking on the phone: to the end, or to some point in the middle. */
  datatype Unpacking = Through | Stopped(paths: set<string>, itself: bool)

  /** An `adb pull`: done, or failed with or without something left in the local file. */
  datatype Pulling = Pulled | NotPulled(left: Option<nat>)

  /** The answers of one phone to one run. No run makes the same call twice, so a call is known by what it is
      about: a directory, a package, or a package and the position of one of its APKs. `allows` says which apps
      let `adb backup` have their data, `brings` what an `adb restore` makes of a directory. */
  datatype Answers = Answers(
    shows: (Root, string) -> bool,
    tars: (Root, string) -> Tar,
    tells: (Root, string) -> bool,
    unpacks: (Root, string) -> Unpacking,
    misses: (Root, string) -> set<string>,
    runsAs: string -> bool,
    unpacksAs: string -> Unpacking,
    pulls: (string, nat) -> Pulling,
    installs: string -> bool,
    users: string -> string,
    allows: string -> bool,
    backsUp: bool,
    restores: bool,
    brings: (Root, string) -> Option<Directory>)

  /** The contents of the APK at a path on the phone. */
  type Apks = string -> nat

  // ---------------------------------------------------------------- directories

  /** The directory itself, among the paths below it. */
  const ITSELF := "."

  /** Unpacking adds the archive's files to those that are there and takes over the archive's owners. */
  function Unpacked(was: Directory, from: Directory): Directory {
    Directory(from.owner, was.files + from.files)
  }

  /** `chown -R`: every owner changes, except where it does not manage to. */
  function Chowned(dir: Directory, owner: string, missed: set<string>): Directory {
    Directory(if ITSELF in missed then dir.owner else owner,
              map path | path in dir.files ::
                Node(dir.files[path].content, if path in missed then dir.files[path].owner else owner))
  }

  /** A part of a directory, as an interrupted unpacking leaves it. */
  function PartOf(dir: Directory, paths: set<string>, itself: bool, was: Directory): Directory {
    Directory(if itself then dir.owner else was.owner,
              was.files + map path | path in dir.files && path in paths :: dir.files[path])
  }

  /** Unpacking as root below a root directory. The archive says which directory that is. */
  function AfterUnpack(dirs: Directories, root: Root, blob: Blob, how: Unpacking): Directories {
    if !blob.Archive? then dirs
    else
      var key := (root, blob.name);
      var was := if key in dirs then dirs[key] else Directory("", map[]);
      match how
      case Through => dirs[key := Unpacked(was, blob.directory)]
      case Stopped(paths, itself) => dirs[key := PartOf(blob.directory, paths, itself, was)]
  }

  predicate CanUnpackAs(keys: set<(Root, string)>, name: string, blob: Blob) {
    blob.Archive? && blob.name == name && (CredentialEncrypted, name) in keys
  }

  /** Unpacking through `run-as`: as the app's own user, which can write to its own directory only and owns
      what it writes. */
  function AfterUnpackAs(dirs: Directories, name: string, blob: Blob, how: Unpacking): Directories {
    if !CanUnpackAs(dirs.Keys, name, blob) then dirs
    else
      var key := (CredentialEncrypted, name);
      var was := dirs[key];
      var own := Directory(was.owner, Chowned(blob.directory, was.owner, {}).files);
      match how
      case Through => dirs[key := Unpacked(was, own)]
      case Stopped(paths, _) => dirs[key := PartOf(own, paths, false, was)]
  }

  /** Installing an app makes the directories it does not have yet, owned by the user the app gets. */
  function AfterInstall(dirs: Directories, name: string, user: string): Directories {
    var ce := if (CredentialEncrypted, name) in dirs then dirs
              else dirs[(CredentialEncrypted, name) := Directory(user, map[])];
    if (DeviceProtected, name) in dirs then ce else ce[(DeviceProtected, name) := Directory(user, map[])]
  }

  function KeysOf(names: set<string>): set<(Root, string)> {
    (set name | name in names :: (CredentialEncrypted, name)) + (set name | name in names :: (DeviceProtected, name))
  }

  /** `adb restore` does what it likes with the directories of the packages in its archive. */
  function AfterLegacyRestore(dirs: Directories, names: set<string>, answers: Answers): Directories {
    dirs - KeysOf(names) +
    map key | key in KeysOf(names) && answers.brings(key.0, key.1).Some? :: answers.brings(key.0, key.1).value
  }

  lemma LegacyRestoreLocal(dirs: Directories, names: set<string>, answers: Answers)
    ensures forall root, name | name !in names :: SameAt(AfterLegacyRestore(dirs, names, answers), dirs, root, name)
  {
  }

  /** Pulling one file. */
  function AfterPull(files: Files, path: string, content: nat, how: Pulling): Files {
    match how
    case Pulled => files[path := Other(content)]
    case NotPulled(Some(left)) => files[path := Other(left)]
    case NotPulled(None) => files
  }

  // ---------------------------------------------------------------- measuring files

  /** How the program measures a local file: the digest, the size, and whether the file can be read through
      when its digest is taken after a capture and when it is checked before a restore. */
  datatype Measure = Measure(digest: Blob -> string, size: Blob -> nat, hashes: string -> bool, rereads: string -> bool)

  /** Only nothing has no size, and no digest is the empty text. */
  ghost predicate Measures(m: Measure) {
    (forall blob :: m.size(blob) == 0 <==> blob == Empty) && (forall blob :: m.digest(blob) != "")
  }

  /** The digest of a file, or nothing if it cannot be read through. */
  function ChecksumOrEmpty(path: string, blob: Blob, m: Measure): string {
    if m.hashes(path) then m.digest(blob) else ""
  }

  /** No recorded digest accepts any file. */
  predicate ChecksumMatches(path: string, blob: Blob, expected: string, m: Measure) {
    expected == "" || (m.rereads(path) && m.digest(blob) == expected)
  }

  // ---------------------------------------------------------------- the objects of a run

  /** The user's cancel request. The program looks for one now and then; the request, if there is one, has
      come when it looks for the `at`-th time, and is not taken back during a run. */
  class Control {
    const at: Option<nat>
    var asked: nat
    var cancelled: bool

    constructor (at: Option<nat>)
      ensures this.at == at && !cancelled
    {
      this.at := at;
      asked, cancelled := 0, false;
    }

    /** The user does not cancel this run. */
    predicate Calm()
      reads this
    {
      !cancelled && at.None?
    }

    /** A request stays, and without one the run is not cancelled. */
    twostate predicate Later()
      reads this
    {
      (old(cancelled) ==> cancelled) && (old(Calm()) ==> Calm())
    }

    method Requested() returns (yes: bool)
      modifies this
      ensures yes == cancelled && Later()
    {
      if at == Some(asked) { cancelled := true; }
      asked := asked + 1;
      return cancelled;
    }
  }

  /** The backup directory: files by their path relative to it. */
  class Disk {
    var files: Files

    constructor (files: Files)
      ensures this.files == files
    {
      this.files := files;
    }

    method Remove(path: string)
      modifies this
      ensures files == old(files) - {path}
    {
      files := files - {path};
    }
  }

  /** The phone. The ghost fields record which calls were made and succeeded. */
  class Phone {
    const answers: Answers
    const apks: Apks
    var dirs: Directories
    ghost var unpacked: set<(Root, string, Blob)>
    ghost var installed: set<seq<string>>
    ghost var legacyRestored: set<Blob>

    constructor (answers: Answers, apks: Apks, dirs: Directories)
      ensures this.answers == answers && this.apks == apks && this.dirs == dirs
      ensures unpacked == {} && installed == {} && legacyRestored == {}
    {
      this.answers, this.apks, this.dirs := answers, apks, dirs;
      unpacked, installed, legacyRestored := {}, {}, {};
    }

    method Exists(root: Root, name: string) returns (yes: bool)
      ensures yes <==> (root, name) in dirs && answers.shows(root, name)
    {
      return (root, name) in dirs && answers.shows(root, name);
    }

    /** `tar` on the phone, its output into a local file. A run reported as good has written the whole archive
        or nothing at all. */
    method TarToFile(disk: Disk, root: Root, name: string, path: string) returns (ok: bool)
      modifies disk
      ensures SameBut(disk.files, old(disk.files), {path}) && path in disk.files
      ensures ok <==> answers.tars(root, name).Silent? || (answers.tars(root, name).Whole? && (root, name) in dirs)
      ensures ok && answers.tars(root, name).Whole? ==> disk.files[path] == Archive(name, dirs[(root, name)])
      ensures ok && answers.tars(root, name).Silent? ==> disk.files[path] == Empty
    {
      match answers.tars(root, name)
      case Whole =>
        ok := (root, name) in dirs;
        disk.files := disk.files[path := if ok then Archive(name, dirs[(root, name)]) else Empty];
      case Silent =>
        ok := true;
        disk.files := disk.files[path := Empty];
      case Broken(left) =>
        ok := false;
        disk.files := disk.files[path := Other(left)];
    }

    /** The owner of a directory, if there is one and adb answers. */
    method Owner(root: Root, name: string) returns (owner: Option<string>)
      ensures owner == if (root, name) in dirs && answers.tells(root, name) then Some(dirs[(root, name)].owner)
                       else None
    {
      return if (root, name) in dirs && answers.tells(root, name) then Some(dirs[(root, name)].owner) else None;
    }

    /** Unpacks a local archive as root below a root directory. */
    method Unpack(root: Root, blob: Blob) returns (ok: bool)
      modifies this`dirs, this`unpacked
      ensures ok <==> blob.Archive? && answers.unpacks(root, blob.name).Through?
      ensures blob.Archive? ==> dirs == AfterUnpack(old(dirs), root, blob, answers.unpacks(root, blob.name))
      ensures !blob.Archive? ==> dirs == old(dirs)
      ensures unpacked == if ok then old(unpacked) + {(root, blob.name, blob)} else old(unpacked)
    {
      if !blob.Archive? { return false; }
      dirs := AfterUnpack(dirs, root, blob, answers.unpacks(root, blob.name));
      ok := answers.unpacks(root, blob.name).Through?;
      if ok { unpacked := unpacked + {(root, blob.name, blob)}; }
    }

    method UnpackAs(name: string, blob: Blob) returns (ok: bool)
      modifies this`dirs, this`unpacked
      ensures ok <==> CanUnpackAs(old(dirs).Keys, name, blob) && answers.unpacksAs(name).Through?
      ensures dirs == AfterUnpackAs(old(dirs), name, blob, answers.unpacksAs(name))
      ensures unpacked == if ok then old(unpacked) + {(CredentialEncrypted, name, blob)} else old(unpacked)
    {
      ok := CanUnpackAs(dirs.Keys, name, blob) && answers.unpacksAs(name).Through?;
      dirs := AfterUnpackAs(dirs, name, blob, answers.unpacksAs(name));
      if ok { unpacked := unpacked + {(CredentialEncrypted, name, blob)}; }
    }

    /** `chown -R`. */
    method Chown(root: Root, name: string, owner: string)
      requires (root, name) in dirs
      modifies this`dirs
      ensures dirs == old(dirs)[(root, name) := Chowned(old(dirs)[(root, name)], owner, answers.misses(root, name))]
    {
      dirs := dirs[(root, name) := Chowned(dirs[(root, name)], owner, answers.misses(root, name))];
    }

    /** Pulls the i-th APK of a package. */
    method Pull(disk: Disk, name: string, i: nat, remote: string, path: string) returns (ok: bool)
      modifies disk
      ensures ok <==> answers.pulls(name, i).Pulled?
      ensures disk.files == AfterPull(old(disk.files), path, apks(remote), answers.pulls(name, i))
    {
      disk.files := AfterPull(disk.files, path, apks(remote), answers.pulls(name, i));
      return answers.pulls(name, i).Pulled?;
    }

    /** Which of these packages `run-as` can act for. */
    method SupportingRunAs(names: seq<string>) returns (able: seq<string>)
      ensures forall name :: name in able <==> name in names && answers.runsAs(name)
    {
      able := [];
      for i := 0 to |names|
        invariant forall name :: name in able <==> name in names[..i] && answers.runsAs(name)
      {
        assert names[..i + 1] == names[..i] + [names[i]];
        if answers.runsAs(names[i]) { able := able + [names[i]]; }
      }
      assert names[..|names|] == names;
    }

    /** Installs a package from its APKs. */
    method Install(name: string, files: seq<string>) returns (ok: bool)
      modifies this`installed, this`dirs
      ensures ok <==> answers.installs(name)
      ensures dirs == if ok then AfterInstall(old(dirs), name, answers.users(name)) else old(dirs)
      ensures installed == if ok then old(installed) + {files} else old(installed)
    {
      ok := answers.installs(name);
      if ok {
        dirs := AfterInstall(dirs, name, answers.users(name));
        installed := installed + {files};
      }
    }

    /** `adb backup` of these packages into one local file. It leaves out the apps that do not allow it, and does
        not say so. */
    method LegacyBackup(disk: Disk, path: string, names: seq<string>) returns (ok: bool)
      modifies disk
      ensures ok == answers.backsUp
      ensures SameBut(disk.files, old(disk.files), {path})
      ensures ok ==> path in disk.files && disk.files[path] == Legacy(set name | name in names && answers.allows(name))
    {
      ok := answers.backsUp;
      var partly: bool := *;
      var left: nat := *;
      if ok {
        disk.files := disk.files[path := Legacy(set name | name in names && answers.allows(name))];
      } else if partly {
        disk.files := disk.files[path := Other(left)];
      }
    }

    /** `adb restore`: the data of all the packages in the archive comes back, and of no others. */
    method LegacyRestore(blob: Blob) returns (ok: bool)
      modifies this`legacyRestored, this`dirs
      ensures ok == answers.restores
      ensures forall root, name | name !in HeldBy(blob) :: SameAt(dirs, old(dirs), root, name)
      ensures legacyRestored == if ok then old(legacyRestored) + {blob} else old(legacyRestored)
    {
      ok := answers.restores;
      LegacyRestoreLocal(dirs, HeldBy(blob), answers);
      dirs := AfterLegacyRestore(dirs, HeldBy(blob), answers);
      if ok { legacyRestored := legacyRestored + {blob}; }
    }
  }
}
