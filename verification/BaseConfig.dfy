/** base_config.py of dependency_manager: update jobs change the configuration in
    memory, ExecuteUpdateJobs uploads the files and then writes the configuration. */
module BaseConfig {
  import opened Basics
  import opened UploadLog
  import opened Uploader
  import opened UploadContent

  /** The fields that are there; `others`, the local paths among them, are never updated. */
  datatype PlatformInfo = PlatformInfo(hash: Option<string>, version: Option<string>, downloadPath: Option<string>,
                                       others: map<string, seq<string>>)

  /** A missing folder or bucket and an empty one are alike to the code and are both "" here. */
  datatype Dependency = Dependency(baseFolder: string, bucket: string, platforms: map<string, PlatformInfo>)

  type Config = map<string, Dependency>

  const NO_INFO := PlatformInfo(None, None, None, map[])

  function CloudStorageRemotePath(dependency: string, hash: string, baseFolder: string): (path: string)
    ensures path != ""
  {
    var file := dependency + "_" + hash;
    if baseFolder == "" then file else baseFolder + "/" + file
  }

  function RemoteKey(dependency: string, d: Dependency, hash: string): Key {
    Key(d.bucket, CloudStorageRemotePath(dependency, hash, d.baseFolder))
  }

  /** `c` has information for the pair; an empty dictionary counts as none. */
  predicate HasInfo(c: Config, dependency: string, platform: string) {
    dependency in c && platform in c[dependency].platforms && c[dependency].platforms[platform] != NO_INFO
  }

  /** There is information when the pair has some field. */
  lemma HasInfoIff(c: Config, dependency: string, platform: string)
    ensures HasInfo(c, dependency, platform) <==>
            && dependency in c && platform in c[dependency].platforms
            && var p := c[dependency].platforms[platform];
               p.hash.Some? || p.version.Some? || p.downloadPath.Some? || p.others != map[]
  {
  }

  /** `c` gives the pair the hash `h`. */
  ghost predicate HasHash(c: Config, dependency: string, platform: string, h: string) {
    dependency in c && platform in c[dependency].platforms && c[dependency].platforms[platform].hash == Some(h)
  }

  /** Every hash that `c` names has its object at the remote path. */
  ghost predicate NoDangling(c: Config, objects: Objects) {
    forall dep, plat, h {:trigger HasHash(c, dep, plat, h)} :: HasHash(c, dep, plat, h) ==>
        RemoteKey(dep, c[dep], h) in objects
  }

  /** The key is where some hash of `c` expects its object. */
  ghost predicate Names(c: Config, k: Key) {
    exists dep, plat, h :: HasHash(c, dep, plat, h) && RemoteKey(dep, c[dep], h) == k
  }

  /** Dependencies on disk keep their bucket and folder in memory. */
  ghost predicate SameHome(memory: Config, disk: Config) {
    forall dep :: dep in disk ==>
      dep in memory && memory[dep].bucket == disk[dep].bucket && memory[dep].baseFolder == disk[dep].baseFolder
  }

  /** A hash in memory is on disk too, or an upload to its remote path is pending. */
  ghost predicate Backed(memory: Config, disk: Config, targets: set<Key>) {
    forall dep, plat, h {:trigger HasHash(memory, dep, plat, h)} :: HasHash(memory, dep, plat, h) ==>
      HasHash(disk, dep, plat, h) || RemoteKey(dep, memory[dep], h) in targets
  }

  function WithHash(c: Config, dependency: string, platform: string, h: string, version: string): Config
    requires HasInfo(c, dependency, platform)
  {
    var d := c[dependency];
    var p := d.platforms[platform];
    var p' := p.(hash := Some(h), version := if version == "" then p.version else Some(version));
    c[dependency := d.(platforms := d.platforms[platform := p'])]
  }

  /** Once every pending upload is done, the configuration in memory dangles nowhere. */
  lemma BackedMeansPresent(memory: Config, disk: Config, targets: set<Key>, objects: Objects)
    requires SameHome(memory, disk) && Backed(memory, disk, targets) && NoDangling(disk, objects)
    requires targets <= objects.Keys
    ensures NoDangling(memory, objects)
  {
    forall dep, plat, h | HasHash(memory, dep, plat, h) ensures RemoteKey(dep, memory[dep], h) in objects {
      if HasHash(disk, dep, plat, h) {
        assert RemoteKey(dep, memory[dep], h) == RemoteKey(dep, disk[dep], h);
      }
    }
  }

  function WithDownloadPath(c: Config, dependency: string, platform: string, path: string): Config
    requires dependency in c
  {
    var d := c[dependency];
    var p := if platform in d.platforms then d.platforms[platform] else NO_INFO;
    c[dependency := d.(platforms := d.platforms[platform := p.(downloadPath := Some(path))])]
  }

  /** What `c` records for the pair, if anything. */
  function InfoAt(c: Config, dependency: string, platform: string): Option<PlatformInfo> {
    if dependency in c && platform in c[dependency].platforms then Some(c[dependency].platforms[platform]) else None
  }

  /** `b` differs from `a` in what it records for one pair, and in nothing else. */
  ghost predicate OnlyPairChanged(a: Config, b: Config, dependency: string, platform: string) {
    && b.Keys == a.Keys
    && (forall dep :: dep in a ==> b[dep].bucket == a[dep].bucket && b[dep].baseFolder == a[dep].baseFolder)
    && forall dep, plat {:trigger InfoAt(b, dep, plat)} ::
         dep != dependency || plat != platform ==> InfoAt(b, dep, plat) == InfoAt(a, dep, plat)
  }

  /** The download path is recorded in its own field, beside what was there. */
  lemma DownloadPathRecorded(c: Config, dependency: string, platform: string, path: string)
    requires dependency in c
    ensures var c' := WithDownloadPath(c, dependency, platform, path);
            && OnlyPairChanged(c, c', dependency, platform)
            && match InfoAt(c', dependency, platform)
               case None => false
               case Some(p) =>
                 p.downloadPath == Some(path) &&
                 match InfoAt(c, dependency, platform)
                 case None => p.hash.None? && p.version.None? && p.others == map[]
                 case Some(was) => p.hash == was.hash && p.version == was.version && p.others == was.others
  {
  }

  /** The hash and a version that is given are recorded in their fields. */
  lemma HashRecorded(c: Config, dependency: string, platform: string, h: string, version: string)
    requires HasInfo(c, dependency, platform)
    ensures var c' := WithHash(c, dependency, platform, h, version);
            && OnlyPairChanged(c, c', dependency, platform)
            && InfoAt(c', dependency, platform).Some?
            && var p, was := InfoAt(c', dependency, platform).value, InfoAt(c, dependency, platform).value;
               && p.hash == Some(h) && (version != "" ==> p.version == Some(version))
               && (version == "" ==> p.version == was.version)
               && p.downloadPath == was.downloadPath && p.others == was.others
  {
  }

  lemma WithDownloadPathKeepsHashes(c: Config, dependency: string, platform: string, path: string)
    requires dependency in c
    ensures var c' := WithDownloadPath(c, dependency, platform, path);
            && c'.Keys == c.Keys
            && (forall dep :: dep in c ==> c'[dep].bucket == c[dep].bucket && c'[dep].baseFolder == c[dep].baseFolder)
            && forall dep, plat, x {:trigger HasHash(c', dep, plat, x)} ::
                 HasHash(c', dep, plat, x) ==> HasHash(c, dep, plat, x)
  {
  }

  lemma WithHashKeepsRest(c: Config, dependency: string, platform: string, h: string, version: string)
    requires HasInfo(c, dependency, platform)
    ensures var c' := WithHash(c, dependency, platform, h, version);
            && c'.Keys == c.Keys
            && (forall dep :: dep in c ==> c'[dep].bucket == c[dep].bucket && c'[dep].baseFolder == c[dep].baseFolder)
            && HasHash(c', dependency, platform, h)
            && forall dep, plat, x {:trigger HasHash(c', dep, plat, x)} ::
                 HasHash(c', dep, plat, x) ==>
                   (dep == dependency && plat == platform && x == h) || HasHash(c, dep, plat, x)
  {
  }

  /** No hash of the configuration lives where a rollback would delete an object. */
  ghost predicate HarmlessFlags(disk: Config, jobs: seq<Job>, flags: seq<Flags>)
    requires |jobs| == |flags|
  {
    forall i {:trigger flags[i]} :: 0 <= i < |jobs| && flags[i].updated && !flags[i].backedUp ==>
        !Names(disk, jobs[i].target)
  }

  /** An upload that replaced nothing went where the configuration names nothing. */
  lemma UploadsStayHarmless(disk: Config, m: Objects, jobs: seq<Job>, flags: seq<Flags>, done: nat, copied: bool)
    requires done <= |jobs| == |flags| && (copied ==> done < |jobs|)
    requires NoDangling(disk, m) && HarmlessFlags(disk, jobs, flags)
    ensures HarmlessFlags(disk, jobs, FlagsAfter(m, jobs, flags, done, copied))
  {
    var after := FlagsAfter(m, jobs, flags, done, copied);
    forall i | 0 <= i < |jobs| && after[i].updated && !after[i].backedUp ensures !Names(disk, jobs[i].target) {
      FlagsAfterAt(m, jobs, flags, done, copied, i);
      if i < done {
        UploadedToGrows(m, jobs, i);
        assert !Occupied(m, jobs, i);
      } else {
        assert flags[i].updated && !flags[i].backedUp;
      }
    }
  }

  lemma NoDanglingGrows(c: Config, m: Objects, m': Objects)
    requires NoDangling(c, m) && m.Keys <= m'.Keys
    ensures NoDangling(c, m')
  {
    forall dep, plat, h | HasHash(c, dep, plat, h) ensures RemoteKey(dep, c[dep], h) in m' {
      assert RemoteKey(dep, c[dep], h) in m;
    }
  }

  lemma RolledBackKeepsNamed(disk: Config, m: Objects, j: Job, f: Flags)
    requires NoDangling(disk, m) && RolledBack(m, j, f).Some?
    requires f.updated && !f.backedUp ==> !Names(disk, j.target)
    ensures NoDangling(disk, RolledBack(m, j, f).value)
  {
    var r := RolledBack(m, j, f).value;
    forall dep, plat, h | HasHash(disk, dep, plat, h) ensures RemoteKey(dep, disk[dep], h) in r {
      assert RemoteKey(dep, disk[dep], h) in m;
    }
  }

  lemma {:induction false} RollbackKeepsNamed(disk: Config, m: Objects, jobs: seq<Job>, flags: seq<Flags>,
                                              n: nat, left: nat)
    requires left <= n <= |jobs| == |flags| && NoDangling(disk, m) && HarmlessFlags(disk, jobs, flags)
    requires RolledBackDownTo(m, jobs, flags, n, left).Some?
    ensures NoDangling(disk, RolledBackDownTo(m, jobs, flags, n, left).value)
    decreases n
  {
    if left < n {
      RolledBackKeepsNamed(disk, m, jobs[n - 1], flags[n - 1]);
      RollbackKeepsNamed(disk, RolledBack(m, jobs[n - 1], flags[n - 1]).value, jobs, flags, n - 1, left);
    }
  }

  /** A new hash in memory is backed exactly when it is on disk or has its upload. */
  lemma BackedWithHash(memory: Config, disk: Config, targets: set<Key>, more: set<Key>, dependency: string,
                       platform: string, h: string, version: string)
    requires HasInfo(memory, dependency, platform) && targets <= more
    requires Backed(memory, disk, targets) && SameHome(memory, disk)
    ensures var memory' := WithHash(memory, dependency, platform, h, version);
            && SameHome(memory', disk)
            && memory'[dependency].bucket == memory[dependency].bucket
            && memory'[dependency].baseFolder == memory[dependency].baseFolder
            && (Backed(memory', disk, more) <==>
                HasHash(disk, dependency, platform, h) || RemoteKey(dependency, memory[dependency], h) in more)
  {
    WithHashKeepsRest(memory, dependency, platform, h, version);
    var memory' := WithHash(memory, dependency, platform, h, version);
    assert HasHash(memory', dependency, platform, h);
    assert RemoteKey(dependency, memory'[dependency], h) == RemoteKey(dependency, memory[dependency], h);
    if HasHash(disk, dependency, platform, h) || RemoteKey(dependency, memory[dependency], h) in more {
      forall dep, plat, x | HasHash(memory', dep, plat, x)
        ensures HasHash(disk, dep, plat, x) || RemoteKey(dep, memory'[dep], x) in more
      {
        if !(dep == dependency && plat == platform && x == h) {
          assert HasHash(memory, dep, plat, x);
          assert RemoteKey(dep, memory'[dep], x) == RemoteKey(dep, memory[dep], x);
        }
      }
    }
  }

  // ----- the named hashes

  /** The remote keys that the configuration names, with the hash of each. */
  ghost function NamedBy(c: Config): Named {
    set dep, plat | dep in c && plat in c[dep].platforms && c[dep].platforms[plat].hash.Some? ::
      (RemoteKey(dep, c[dep], c[dep].platforms[plat].hash.value), c[dep].platforms[plat].hash.value)
  }

  /** A store with the right contents has, in particular, the objects. */
  lemma GenuineIsNotDangling(hash: Hashing, c: Config, m: Objects)
    requires Genuine(hash, NamedBy(c), m)
    ensures NoDangling(c, m)
  {
    forall dep, plat, h | HasHash(c, dep, plat, h) ensures RemoteKey(dep, c[dep], h) in m {
      assert (RemoteKey(dep, c[dep], h), h) in NamedBy(c);
    }
  }

  /** A digest in hexadecimal, as far as it matters. */
  predicate IsDigest(h: string) {
    '_' !in h && '.' !in h
  }

  /** The part of a text after the last `c`. */
  function LastPart(s: string, c: char): string {
    if c in s then LastPart(s[1..], c) else s
  }

  /** The part of a path after its last underscore. */
  function Tail(path: string): string {
    LastPart(path, '_')
  }

  lemma {:induction false} LastPartOf(a: string, c: char, b: string)
    requires c !in b
    ensures LastPart(a + [c] + b, c) == b
    decreases |a|
  {
    var s := a + [c] + b;
    assert s[|a|] == c;
    if a == "" {
      assert s[1..] == b;
    } else {
      assert s[1..] == a[1..] + [c] + b;
      LastPartOf(a[1..], c, b);
    }
  }

  lemma TailOf(a: string, h: string)
    requires '_' !in h
    ensures Tail(a + "_" + h) == h
  {
    LastPartOf(a, '_', h);
  }

  /** A remote path tells which hash it is for. */
  lemma RemotePathTellsHash(dependency: string, h: string, folder: string)
    requires IsDigest(h)
    ensures Tail(CloudStorageRemotePath(dependency, h, folder)) == h
    ensures !IsDigest(Tail(CloudStorageRemotePath(dependency, h, folder) + "." + BACKUP_PATH_EXTENSION))
  {
    var a := if folder == "" then dependency else folder + "/" + dependency;
    var path := CloudStorageRemotePath(dependency, h, folder);
    assert path == a + "_" + h;
    TailOf(a, h);
    var kept := h + "." + BACKUP_PATH_EXTENSION;
    assert path + "." + BACKUP_PATH_EXTENSION == a + "_" + kept;
    assert kept[|h|] == '.';
    TailOf(a, kept);
  }

  /** A text tells what stands before and after its last `c`. */
  lemma LastCut(a1: string, b1: string, a2: string, b2: string, c: char)
    requires c !in b1 && c !in b2 && a1 + [c] + b1 == a2 + [c] + b2
    ensures a1 == a2 && b1 == b2
  {
    LastPartOf(a1, c, b1);
    LastPartOf(a2, c, b2);
    assert a1 == (a1 + [c] + b1)[..|a1|] && a2 == (a2 + [c] + b2)[..|a1|];
  }

  /** The part of a remote path before the hash. */
  function Stem(dependency: string, folder: string): string {
    if folder == "" then dependency else folder + "/" + dependency
  }

  lemma SlashInStem(dependency: string, folder: string)
    requires '/' !in dependency
    ensures '/' in Stem(dependency, folder) <==> folder != ""
  {
    if folder != "" {
      assert Stem(dependency, folder)[|folder|] == '/';
    }
  }

  lemma StemTellsParts(d1: string, f1: string, d2: string, f2: string)
    requires '/' !in d1 && '/' !in d2 && Stem(d1, f1) == Stem(d2, f2)
    ensures d1 == d2 && f1 == f2
  {
    SlashInStem(d1, f1);
    SlashInStem(d2, f2);
    if f1 != "" {
      LastCut(f1, d1, f2, d2, '/');
    }
  }

  /** A remote path tells its folder, its dependency and its hash, as long as no dependency
      has a slash in its name. */
  lemma RemotePathTellsAll(d1: string, h1: string, f1: string, d2: string, h2: string, f2: string)
    requires IsDigest(h1) && IsDigest(h2) && '/' !in d1 && '/' !in d2
    ensures CloudStorageRemotePath(d1, h1, f1) == CloudStorageRemotePath(d2, h2, f2) <==>
            d1 == d2 && h1 == h2 && f1 == f2
  {
    assert CloudStorageRemotePath(d1, h1, f1) == Stem(d1, f1) + "_" + h1;
    assert CloudStorageRemotePath(d2, h2, f2) == Stem(d2, f2) + "_" + h2;
    if CloudStorageRemotePath(d1, h1, f1) == CloudStorageRemotePath(d2, h2, f2) {
      LastCut(Stem(d1, f1), h1, Stem(d2, f2), h2, '_');
      StemTellsParts(d1, f1, d2, f2);
    }
  }

  /** So uploads for different dependencies, folders, buckets or hashes have different targets. */
  lemma RemoteKeyTellsAll(dep1: string, d1: Dependency, h1: string, dep2: string, d2: Dependency, h2: string)
    requires IsDigest(h1) && IsDigest(h2) && '/' !in dep1 && '/' !in dep2
    ensures RemoteKey(dep1, d1, h1) == RemoteKey(dep2, d2, h2) <==>
            dep1 == dep2 && d1.bucket == d2.bucket && d1.baseFolder == d2.baseFolder && h1 == h2
  {
    RemotePathTellsAll(dep1, h1, d1.baseFolder, dep2, h2, d2.baseFolder);
  }

  /** With a slash it need not: the folder of one can be the beginning of the other. */
  lemma SlashesMixUp(folder: string, dependency: string, h: string)
    requires folder != ""
    ensures CloudStorageRemotePath(folder + "/" + dependency, h, "") == CloudStorageRemotePath(dependency, h, folder)
  {
  }

  lemma {:induction false} TailExtended(path: string, more: string)
    requires '_' !in more
    ensures Tail(path + more) == Tail(path) + more
    decreases |path|
  {
    if '_' in path {
      assert path != "" && (path + more)[1..] == path[1..] + more;
      var k :| 0 <= k < |path| && path[k] == '_';
      assert (path + more)[k] == '_';
      TailExtended(path[1..], more);
    }
  }

  /** The hashes of the configuration are digests. */
  ghost predicate DigestsOnly(c: Config) {
    forall dep, plat, h {:trigger HasHash(c, dep, plat, h)} :: HasHash(c, dep, plat, h) ==> IsDigest(h)
  }

  lemma NamedByDigest(c: Config, p: (Key, string))
    requires DigestsOnly(c) && p in NamedBy(c)
    ensures IsDigest(p.1) && Tail(p.0.path) == p.1 && Names(c, p.0)
  {
    var dep, plat :| dep in c && plat in c[dep].platforms && c[dep].platforms[plat].hash == Some(p.1)
                     && p.0 == RemoteKey(dep, c[dep], p.1);
    assert HasHash(c, dep, plat, p.1);
    RemotePathTellsHash(dep, p.1, c[dep].baseFolder);
  }

  lemma DigestsWithHash(c: Config, dependency: string, platform: string, h: string, version: string)
    requires HasInfo(c, dependency, platform)
    ensures DigestsOnly(c) && IsDigest(h) ==> DigestsOnly(WithHash(c, dependency, platform, h, version))
  {
    WithHashKeepsRest(c, dependency, platform, h, version);
  }

  /** The target tells the digest of the source, and the backup stands beside the target. */
  ghost predicate PlainJob(hash: Hashing, j: Job) {
    && IsDigest(hash(j.source)) && Tail(j.target.path) == hash(j.source)
    && j.backup == Key(j.target.bucket, j.target.path + "." + BACKUP_PATH_EXTENSION)
  }

  lemma BackupTail(hash: Hashing, j: Job)
    requires PlainJob(hash, j)
    ensures !IsDigest(Tail(j.backup.path))
  {
    var ext := "." + BACKUP_PATH_EXTENSION;
    assert j.target.path + "." + BACKUP_PATH_EXTENSION == j.target.path + ext;
    TailExtended(j.target.path, ext);
    assert (hash(j.source) + ext)[|hash(j.source)|] == '.';
  }

  lemma PlainJobIsHonest(hash: Hashing, c: Config, j: Job)
    requires PlainJob(hash, j) && DigestsOnly(c)
    ensures Honest(hash, NamedBy(c), j)
  {
    BackupTail(hash, j);
    forall p | p in NamedBy(c) ensures IsDigest(p.1) && Tail(p.0.path) == p.1 {
      NamedByDigest(c, p);
    }
  }

  /** The upload of a new job brings what any configuration with digests expects at its
      target, and a fresh uploader keeps its backup out of the way. */
  lemma AddedJobIsHonest(hash: Hashing, c: Config, dependency: string, d: Dependency, source: Blob)
    requires IsDigest(hash(source)) && DigestsOnly(c)
    ensures var target := RemoteKey(dependency, d, hash(source));
            Honest(hash, NamedBy(c), Job(target, Key(target.bucket, target.path + "." + BACKUP_PATH_EXTENSION), source))
  {
    RemotePathTellsHash(dependency, hash(source), d.baseFolder);
    var target := RemoteKey(dependency, d, hash(source));
    PlainJobIsHonest(hash, c, Job(target, Key(target.bucket, target.path + "." + BACKUP_PATH_EXTENSION), source));
  }

  ghost predicate PlainJobs(hash: Hashing, jobs: seq<Job>, flags: seq<Flags>)
    requires |jobs| == |flags|
  {
    forall i {:trigger jobs[i]} {:trigger flags[i]} :: 0 <= i < |jobs| ==> PlainJob(hash, jobs[i]) && !flags[i].backedUp
  }

  lemma PlainJobsAreUnshared(hash: Hashing, named: Named, jobs: seq<Job>, flags: seq<Flags>)
    requires |jobs| == |flags| && PlainJobs(hash, jobs, flags)
    ensures Unshared(named, jobs)
  {
    forall i, j | 0 <= i < |jobs| && 0 <= j < |jobs|
      ensures jobs[i].backup != jobs[j].target
      ensures jobs[i].backup == jobs[j].backup ==> jobs[i].target == jobs[j].target
    {
      assert PlainJob(hash, jobs[i]) && PlainJob(hash, jobs[j]);
      BackupTail(hash, jobs[i]);
      SamePath(jobs[i].target.path, jobs[j].target.path, "." + BACKUP_PATH_EXTENSION);
    }
  }

  lemma SamePath(a: string, b: string, ext: string)
    ensures a + ext == b + ext ==> a == b
    ensures ext == "." + BACKUP_PATH_EXTENSION ==>
              a + "." + BACKUP_PATH_EXTENSION == a + ext && b + "." + BACKUP_PATH_EXTENSION == b + ext
  {
    if a + ext == b + ext {
      assert |a| == |b| && a == (a + ext)[..|a|] && b == (b + ext)[..|b|];
    }
  }

  /** Uploads that have taken no backup and whose targets tell their digests endanger no
      content. */
  lemma PlainJobsAreSound(hash: Hashing, c: Config, m: Objects, jobs: seq<Job>, flags: seq<Flags>)
    requires |jobs| == |flags| && PlainJobs(hash, jobs, flags) && DigestsOnly(c) && HarmlessFlags(c, jobs, flags)
    requires Genuine(hash, NamedBy(c), m)
    ensures AllHonest(hash, NamedBy(c), jobs) && Unshared(NamedBy(c), jobs) && Sound(hash, NamedBy(c), m, jobs, flags)
  {
    PlainJobsAreUnshared(hash, NamedBy(c), jobs, flags);
    forall i | 0 <= i < |jobs|
      ensures Honest(hash, NamedBy(c), jobs[i]) && Spared(NamedBy(c), jobs[i], flags[i]) && !flags[i].backedUp
    {
      assert PlainJob(hash, jobs[i]);
      PlainJobIsHonest(hash, c, jobs[i]);
      forall p | p in NamedBy(c) && flags[i].updated ensures p.0 != jobs[i].target {
        NamedByDigest(c, p);
      }
    }
  }

  lemma BackedByName(memory: Config, disk: Config, targets: set<Key>, p: (Key, string))
    requires SameHome(memory, disk) && Backed(memory, disk, targets) && p in NamedBy(memory)
    ensures p in NamedBy(disk) || p.0 in targets
  {
    var dep, plat :| dep in memory && plat in memory[dep].platforms && memory[dep].platforms[plat].hash == Some(p.1)
                     && p.0 == RemoteKey(dep, memory[dep], p.1);
    assert HasHash(memory, dep, plat, p.1);
    if HasHash(disk, dep, plat, p.1) {
      assert RemoteKey(dep, memory[dep], p.1) == RemoteKey(dep, disk[dep], p.1);
    }
  }

  /** The upload has taken no backup in an earlier try, and goes where its digest belongs. */
  ghost predicate PlainUpload(hash: Hashing, u: CloudStorageUploader)
    reads u
  {
    u.Plain() && Tail(u.remotePath) == hash(u.source)
  }

  ghost predicate AllPlain(hash: Hashing, us: seq<CloudStorageUploader>)
    reads us
  {
    forall i {:trigger PlainUpload(hash, us[i])} :: 0 <= i < |us| ==> PlainUpload(hash, us[i])
  }

  datatype Outcome = Returned(changed: bool) | Raised

  /** How a batch ends: with the file written and the pending list cleared, or rolled back
      before the writing, or rolled back after it. */
  datatype BatchEnd = Written | Undone | UndoneLate

  /** What a run of operations changes: the two configurations, the pending uploads with
      what they remember, and the store. */
  datatype View = View(disk: Config, memory: Config, jobs: seq<Job>, flags: seq<Flags>, objects: Objects)

  datatype Op =
    | AddDependency(dependency: string, baseFolder: string, bucket: string)
    | SetPath(dependency: string, platform: string, path: string)
    | Update(dependency: string, platform: string, file: Option<Blob>, version: string, executeJob: bool)
    | Execute(force: bool)

  ghost predicate SameUploads(a: seq<Job>, b: seq<Job>) {
    |a| == |b| && forall i :: 0 <= i < |a| ==> a[i].target == b[i].target && a[i].source == b[i].source
  }

  /** What ExecuteUpdateJobs can make of `u` when no interrupt falls after the writing: all
      is uploaded and written, or the batch stops somewhere and its rollback too. */
  ghost predicate Executed(u: View, w: View) {
    if u.memory == u.disk || u.jobs == [] then w == u
    else
      || w == View(u.memory, u.memory, [], [], UploadedTo(u.objects, u.jobs, |u.jobs|))
      || (w.disk == u.disk && w.memory == u.memory && SameUploads(u.jobs, w.jobs) &&
          |u.jobs| == |u.flags| && Leftover(u.objects, u.jobs, u.flags, w.objects))
  }

  /** A job with its hash recorded and its upload pending. */
  function WithJob(v: View, dependency: string, platform: string, h: string, file: Blob, version: string): View
    requires HasInfo(v.memory, dependency, platform)
  {
    var target := RemoteKey(dependency, v.memory[dependency], h);
    var backup := Key(target.bucket, target.path + "." + BACKUP_PATH_EXTENSION);
    v.(memory := WithHash(v.memory, dependency, platform, h, version),
       jobs := v.jobs + [Job(target, backup, file)], flags := v.flags + [FRESH])
  }

  /** What an operation can make of `v`, whatever fails in it. */
  ghost predicate Effect(writable: bool, hash: Hashing, op: Op, v: View, w: View) {
    if !writable then w == v
    else
      match op
      case AddDependency(d, folder, bucket) =>
        w == if d in v.memory then v else v.(memory := v.memory[d := Dependency(folder, bucket, map[])])
      case SetPath(d, platform, path) =>
        w == if d in v.memory then v.(memory := WithDownloadPath(v.memory, d, platform, path)) else v
      case Update(d, platform, file, version, executeJob) =>
        if file.None? || !HasInfo(v.memory, d, platform) || (executeJob && v.memory != v.disk) then w == v
        else
          var u := WithJob(v, d, platform, hash(file.value), file.value, version);
          if executeJob then Executed(u, w) else w == u
      case Execute(_) => Executed(v, w)
  }

  lemma BatchEffect(u: View, w: View)
    requires |u.jobs| == |u.flags|
    requires
      || w == View(u.memory, u.memory, [], [], UploadedTo(u.objects, u.jobs, |u.jobs|))
      || (w.disk == u.disk && w.memory == u.memory && SameUploads(u.jobs, w.jobs) &&
          Leftover(u.objects, u.jobs, u.flags, w.objects))
    ensures u.memory != u.disk && u.jobs != [] ==> Executed(u, w)
  {
  }

  lemma UpdateEffect(writable: bool, hash: Hashing, op: Op, v: View, u: View, w: View)
    requires op.Update?
    requires if writable && op.file.Some? && HasInfo(v.memory, op.dependency, op.platform) &&
                (op.executeJob ==> v.memory == v.disk)
             then u == WithJob(v, op.dependency, op.platform, hash(op.file.value), op.file.value, op.version) &&
                  if op.executeJob then Executed(u, w) else w == u
             else w == v
    ensures Effect(writable, hash, op, v, w)
  {
  }

  /** `history` is a run of `ops`. */
  ghost predicate IsRun(writable: bool, hash: Hashing, ops: seq<Op>, history: seq<View>) {
    |history| == |ops| + 1 && forall k :: 0 <= k < |ops| ==> Effect(writable, hash, ops[k], history[k], history[k + 1])
  }

  class BaseConfig {
    const writable: bool
    const cs: CloudStorage
    const hash: Blob -> string      // CalculateHash
    var disk: Config                // the dependencies in the file
    var memory: Config              // _config_data
    var pending: seq<CloudStorageUploader>

    /** The first `n` pending uploads are those of `jobs`, and they remember `flags`. */
    ghost predicate TracksTo(jobs: seq<Job>, flags: seq<Flags>, n: nat)
      reads this, pending
    {
      && n <= |jobs| == |flags| == |pending|
      && forall i {:trigger pending[i]} :: 0 <= i < n ==>
           pending[i].View() == jobs[i] && pending[i].Memory() == flags[i]
    }

    ghost predicate Tracks(jobs: seq<Job>, flags: seq<Flags>)
      reads this, pending
    {
      TracksTo(jobs, flags, |pending|)
    }

    ghost function Jobs(): (js: seq<Job>)
      reads this, pending
    {
      seq(|pending|, i requires 0 <= i < |pending| reads this, pending => pending[i].View())
    }

    ghost function Memories(): (fs: seq<Flags>)
      reads this, pending
    {
      seq(|pending|, i requires 0 <= i < |pending| reads this, pending => pending[i].Memory())
    }

    ghost function Targets(): set<Key>
      reads this
    {
      set u | u in pending :: u.Target()
    }

    /** Deleting what a rollback may delete never takes an object the file on disk names. */
    ghost predicate DeletesHarmless()
      reads this, pending
    {
      forall i {:trigger pending[i]} :: 0 <= i < |pending| && pending[i].updated && !pending[i].backedUp ==>
        !Names(disk, pending[i].Target())
    }

    /** The file on disk does not dangle, and rolling back will not make it dangle. */
    ghost predicate Intact()
      reads this, cs, pending
    {
      NoDangling(disk, cs.objects) && DeletesHarmless()
    }

    ghost function Now(): (v: View)
      reads this, cs, pending
      ensures |v.jobs| == |v.flags|
    {
      View(disk, memory, Jobs(), Memories(), cs.objects)
    }

    ghost predicate Valid()
      reads this
    {
      && (forall i, j :: 0 <= i < j < |pending| ==> pending[i] != pending[j])
      && (forall u :: u in pending ==> u.bucket != "")
    }

    /** What keeps the file on disk from dangling, now and after any later call. */
    ghost predicate Safe()
      reads this, cs, pending
    {
      Intact() && SameHome(memory, disk) && Backed(memory, disk, Targets())
    }

    ghost predicate AllFresh()
      reads this, pending
    {
      forall u :: u in pending ==> u.Memory() == FRESH
    }

    /** The objects named on disk have their hashes, and the pending uploads bring what is
        expected of them and can be undone. */
    ghost predicate ContentReady()
      reads this, cs, pending
    {
      && AllHonest(hash, NamedBy(disk), Jobs()) && AllHonest(hash, NamedBy(memory), Jobs())
      && Unshared(NamedBy(disk), Jobs())
      && Sound(hash, NamedBy(disk), cs.objects, Jobs(), Memories())
      && forall p <- NamedBy(memory) :: p in NamedBy(disk) || exists i :: 0 <= i < |Jobs()| && Jobs()[i].target == p.0
    }

    ghost predicate Plain()
      reads this, pending
    {
      AllPlain(hash, pending)
    }

    /** What keeps the contents of the named objects right, beside Safe. */
    ghost predicate Clean()
      reads this, cs, pending
    {
      && (forall b :: IsDigest(hash(b)))
      && DigestsOnly(disk) && DigestsOnly(memory) && Plain()
      && Genuine(hash, NamedBy(disk), cs.objects)
    }

    lemma CleanIsReady()
      requires Safe() && Clean()
      ensures ContentReady()
    {
      var jobs, flags := Jobs(), Memories();
      forall i | 0 <= i < |jobs| ensures PlainJob(hash, jobs[i]) && !flags[i].backedUp {
        assert PlainUpload(hash, pending[i]);
      }
      HarmlessAgree(jobs, flags);
      PlainJobsAreSound(hash, disk, cs.objects, jobs, flags);
      forall i | 0 <= i < |jobs| ensures Honest(hash, NamedBy(memory), jobs[i]) {
        assert PlainJob(hash, jobs[i]);
        PlainJobIsHonest(hash, memory, jobs[i]);
      }
      forall p | p in NamedBy(memory)
        ensures p in NamedBy(disk) || exists i :: 0 <= i < |jobs| && jobs[i].target == p.0
      {
        BackedByName(memory, disk, Targets(), p);
        if p.0 in Targets() {
          var i :| 0 <= i < |pending| && pending[i].Target() == p.0;
          assert jobs[i].target == p.0;
        }
      }
    }

    /** A config read from `file`, or created empty. */
    constructor (cs: CloudStorage, hash: Blob -> string, file: Config, writable: bool)
      ensures this.cs == cs && this.hash == hash && this.writable == writable
      ensures disk == memory == file && pending == [] && Valid()
      ensures NoDangling(file, cs.objects) ==> Safe()
      ensures (forall b :: IsDigest(hash(b))) && DigestsOnly(file) && Genuine(hash, NamedBy(file), cs.objects) ==>
                Safe() && Clean()
    {
      this.cs, this.hash, this.writable := cs, hash, writable;
      disk, memory, pending := file, file, [];
      new;
      if Genuine(hash, NamedBy(file), cs.objects) {
        GenuineIsNotDangling(hash, file, cs.objects);
      }
    }

    predicate IsDirty()
      reads this
    {
      memory != disk
    }

    method AddNewDependency(dependency: string, baseFolder: string, bucket: string) returns (r: Outcome)
      requires Valid()
      modifies this`memory
      ensures Valid() && (old(Safe()) ==> Safe()) && (old(Clean()) ==> Clean())
      ensures r == if !writable || dependency in old(memory) then Raised else Returned(true)
      ensures Now() == old(Now()).(memory := memory)
      ensures memory == if r.Raised? then old(memory)
                        else old(memory)[dependency := Dependency(baseFolder, bucket, map[])]
    {
      if !writable || dependency in memory {
        return Raised;
      }
      memory := memory[dependency := Dependency(baseFolder, bucket, map[])];
      assert forall dep, plat, h {:trigger HasHash(memory, dep, plat, h)} ::
          HasHash(memory, dep, plat, h) ==> HasHash(old(memory), dep, plat, h) && memory[dep] == old(memory)[dep];
      return Returned(true);
    }

    /** Uploads pending file `i`; the others keep what they remember. */
    method UploadItem(i: nat, force: bool, faulty: bool, ghost jobs: seq<Job>, ghost flags: seq<Flags>)
        returns (ok: bool, ghost copied: bool, ghost f: Flags)
      requires Valid() && Tracks(jobs, flags) && i < |pending|
      modifies pending`updated, pending`backedUp, cs
      ensures disk == old(disk) && memory == old(memory) && pending == old(pending)
      ensures Tracks(jobs, flags[i := f])
      ensures ok ==> !copied && cs.objects == Uploaded(old(cs.objects), jobs[i])
      ensures ok ==> f == Flags(flags[i].backedUp || jobs[i].target in old(cs.objects), true)
      ensures ok && jobs[i].target in old(cs.objects) ==> force
      ensures !ok && copied ==> force && jobs[i].target in old(cs.objects) && f == Flags(true, flags[i].updated)
      ensures !ok ==> cs.objects == if copied then BackedUp(old(cs.objects), jobs[i]) else old(cs.objects)
      ensures !ok && !copied ==> f == flags[i]
      ensures !ok && !faulty ==> !copied && !force && jobs[i].target in old(cs.objects)
    {
      ghost var before := cs.objects;
      assert pending[i].View() == jobs[i] && pending[i].Memory() == flags[i];
      var r := pending[i].Upload(cs, force, faulty);
      ok := r.Uploads?;
      f := pending[i].Memory();
      copied := r.StoreError? && (cs.objects != before || f != flags[i]);
    }

    /** One round of the loop over the pending files, seen from the start of the batch. */
    method UploadNext(done: nat, force: bool, faulty: bool, ghost m: Objects, ghost jobs: seq<Job>,
                      ghost flags: seq<Flags>)
        returns (ok: bool, ghost copied: bool)
      requires Valid() && done < |pending| == |jobs| == |flags|
      requires cs.objects == UploadedTo(m, jobs, done) && Tracks(jobs, FlagsAfter(m, jobs, flags, done, false))
      modifies pending`updated, pending`backedUp, cs
      ensures disk == old(disk) && memory == old(memory) && pending == old(pending)
      ensures cs.objects == if ok then UploadedTo(m, jobs, done + 1) else Interrupted(m, jobs, done, copied)
      ensures Tracks(jobs, if ok then FlagsAfter(m, jobs, flags, done + 1, false)
                           else FlagsAfter(m, jobs, flags, done, copied))
      ensures copied ==> !ok && force && Occupied(m, jobs, done)
      ensures ok && !force ==> !Occupied(m, jobs, done)
      ensures !ok && !faulty ==> !copied && !force && Occupied(m, jobs, done)
    {
      ghost var f;
      ok, copied, f := UploadItem(done, force, faulty, jobs, FlagsAfter(m, jobs, flags, done, false));
      FlagsAfterStep(m, jobs, flags, done, f);
    }

    /** Uploads the pending files in order and stops at the first failure. `copied`
        tells whether the item that failed had got its backup copy made. */
    method UploadInOrder(force: bool, faulty: bool, ghost jobs: seq<Job>, ghost flags: seq<Flags>)
        returns (done: nat, ghost copied: bool)
      requires Valid() && Tracks(jobs, flags)
      modifies pending`updated, pending`backedUp, cs
      ensures disk == old(disk) && memory == old(memory) && pending == old(pending)
      ensures done <= |pending| && (copied ==> done < |pending|)
      ensures cs.objects == Interrupted(old(cs.objects), jobs, done, copied)
      ensures Tracks(jobs, FlagsAfter(old(cs.objects), jobs, flags, done, copied))
      ensures copied ==> force && Occupied(old(cs.objects), jobs, done)
      ensures !force ==> NoneOccupied(old(cs.objects), jobs, done)
      ensures !faulty && done < |pending| ==> !force && Occupied(old(cs.objects), jobs, done)
    {
      ghost var m := cs.objects;
      done, copied := 0, false;
      while done < |pending|
        invariant disk == old(disk) && memory == old(memory) && pending == old(pending)
        invariant done <= |pending| && !copied
        invariant cs.objects == UploadedTo(m, jobs, done)
        invariant Tracks(jobs, FlagsAfter(m, jobs, flags, done, false))
        invariant !force ==> NoneOccupied(m, jobs, done)
      {
        var ok;
        ok, copied := UploadNext(done, force, faulty, m, jobs, flags);
        if !ok {
          return;
        }
        assert cs.objects == UploadedTo(m, jobs, done + 1) && Tracks(jobs, FlagsAfter(m, jobs, flags, done + 1, false));
        done := done + 1;
      }
    }

    /** UploadInOrder with what it means for the file on disk. */
    method UploadAll(force: bool, faulty: bool, ghost jobs: seq<Job>, ghost flags: seq<Flags>)
        returns (done: nat, ghost copied: bool)
      requires Valid() && Tracks(jobs, flags)
      modifies pending`updated, pending`backedUp, cs
      ensures disk == old(disk) && memory == old(memory) && pending == old(pending)
      ensures done <= |pending| && (copied ==> done < |pending|)
      ensures cs.objects == Interrupted(old(cs.objects), jobs, done, copied)
      ensures Tracks(jobs, FlagsAfter(old(cs.objects), jobs, flags, done, copied))
      ensures !force && old(Plain()) ==> Plain()
      ensures copied ==> force && Occupied(old(cs.objects), jobs, done)
      ensures !force ==> NoneOccupied(old(cs.objects), jobs, done)
      ensures !faulty && done < |pending| ==> !force && Occupied(old(cs.objects), jobs, done)
      ensures (old(Intact()) ==> Intact()) && (old(Safe()) ==> Safe())
    {
      ghost var m := cs.objects;
      HarmlessAgree(jobs, flags);
      done, copied := UploadInOrder(force, faulty, jobs, flags);
      if !force && old(Plain()) {
        forall i | 0 <= i < |pending| ensures PlainUpload(hash, pending[i]) {
          assert old(PlainUpload(hash, pending[i]));
          FlagsAfterAt(m, jobs, flags, done, copied, i);
          assert i < done ==> !Occupied(m, jobs, i);
        }
      }
      if old(Intact()) {
        IntactAfterUploads(m, jobs, flags, done, copied);
      }
    }

    lemma IntactAfterUploads(m: Objects, jobs: seq<Job>, flags: seq<Flags>, done: nat, copied: bool)
      requires done <= |jobs| == |flags| && (copied ==> done < |jobs|)
      requires NoDangling(disk, m) && HarmlessFlags(disk, jobs, flags)
      requires cs.objects == Interrupted(m, jobs, done, copied)
      requires Tracks(jobs, FlagsAfter(m, jobs, flags, done, copied))
      ensures Intact()
    {
      InterruptedGrows(m, jobs, done, copied);
      NoDanglingGrows(disk, m, cs.objects);
      UploadsStayHarmless(disk, m, jobs, flags, done, copied);
      HarmlessAgree(jobs, FlagsAfter(m, jobs, flags, done, copied));
    }

    lemma HarmlessAgree(jobs: seq<Job>, flags: seq<Flags>)
      requires Tracks(jobs, flags)
      ensures DeletesHarmless() <==> HarmlessFlags(disk, jobs, flags)
    {
      assert forall i {:trigger flags[i]} :: 0 <= i < |jobs| ==>
            pending[i].View() == jobs[i] && pending[i].Memory() == flags[i];
    }

    /** Rolls pending upload `i` back; the earlier ones keep what they remember. */
    method RollbackItem(i: nat, faulty: bool, ghost jobs: seq<Job>, ghost flags: seq<Flags>) returns (ok: bool)
      requires Valid() && i < |pending| && TracksTo(jobs, flags, i + 1)
      modifies pending`updated, pending`backupPath, cs
      ensures disk == old(disk) && memory == old(memory) && pending == old(pending)
      ensures TracksTo(jobs, flags, i)
      ensures forall u <- pending :: u.updated ==> old(u.updated)
      ensures forall u <- pending :: !u.backedUp ==> u.backupPath == old(u.backupPath)
      ensures if ok then RolledBack(old(cs.objects), jobs[i], flags[i]) == Some(cs.objects)
              else cs.objects == old(cs.objects)
      ensures !faulty ==> (ok <==> RolledBack(old(cs.objects), jobs[i], flags[i]).Some?)
    {
      assert pending[i].View() == jobs[i] && pending[i].Memory() == flags[i];
      var r := pending[i].Rollback(cs, faulty);
      ok := r.Undid?;
    }

    /** Rolls the pending uploads back, the last one first, and stops at a failure with the
        first `left` still to be undone. */
    method RollbackInOrder(faulty: bool, ghost jobs: seq<Job>, ghost flags: seq<Flags>)
        returns (ok: bool, ghost left: nat)
      requires Valid() && Tracks(jobs, flags)
      modifies pending`updated, pending`backupPath, cs
      ensures disk == old(disk) && memory == old(memory) && pending == old(pending)
      ensures forall u <- pending :: u.updated ==> old(u.updated)
      ensures forall u <- pending :: !u.backedUp ==> u.backupPath == old(u.backupPath)
      ensures left <= |pending| && RolledBackDownTo(old(cs.objects), jobs, flags, |jobs|, left) == Some(cs.objects)
      ensures ok <==> left == 0
      ensures !ok && !faulty ==> Stuck(old(cs.objects), jobs, flags, left)
    {
      ghost var m := cs.objects;
      ghost var undone := Some(m);
      var i: nat := |pending|;
      while i > 0
        invariant disk == old(disk) && memory == old(memory) && pending == old(pending)
        invariant i <= |pending| && TracksTo(jobs, flags, i)
        invariant forall u <- pending :: u.updated ==> old(u.updated)
        invariant forall u <- pending :: !u.backedUp ==> u.backupPath == old(u.backupPath)
        invariant undone == RolledBackDownTo(m, jobs, flags, |jobs|, i) && undone == Some(cs.objects)
      {
        RolledBackFurther(m, jobs, flags, |jobs|, i);
        undone := RolledBackDownTo(m, jobs, flags, |jobs|, i - 1);
        ok := RollbackItem(i - 1, faulty, jobs, flags);
        if !ok {
          return false, i;
        }
        i := i - 1;
      }
      return true, 0;
    }

    /** RollbackInOrder with what it means for the file on disk. */
    method RollbackAll(faulty: bool, ghost jobs: seq<Job>, ghost flags: seq<Flags>)
        returns (ok: bool, ghost left: nat)
      requires Valid() && Tracks(jobs, flags)
      modifies pending`updated, pending`backupPath, cs
      ensures disk == old(disk) && memory == old(memory) && pending == old(pending)
      ensures (old(Intact()) ==> Intact()) && (old(Plain()) ==> Plain())
      ensures left <= |pending| && RolledBackDownTo(old(cs.objects), jobs, flags, |jobs|, left) == Some(cs.objects)
      ensures ok <==> left == 0
      ensures !ok && !faulty ==> Stuck(old(cs.objects), jobs, flags, left)
    {
      HarmlessAgree(jobs, flags);
      ghost var m := cs.objects;
      ok, left := RollbackInOrder(faulty, jobs, flags);
      if old(Plain()) {
        forall i | 0 <= i < |pending| ensures PlainUpload(hash, pending[i]) {
          assert old(PlainUpload(hash, pending[i]));
        }
      }
      if old(Intact()) {
        RollbackKeepsNamed(disk, m, jobs, flags, |jobs|, left);
      }
    }

    lemma PendingAre(jobs: seq<Job>, flags: seq<Flags>)
      requires Tracks(jobs, flags)
      ensures |jobs| == |pending|
      ensures forall i {:trigger pending[i]} :: 0 <= i < |pending| ==>
                pending[i].Target() == jobs[i].target && pending[i].source == jobs[i].source
    {
    }

    /** The except clause: `done` and `copied` tell how far the uploads have come from the
        store `m` and the memories `flags`. */
    method UndoBatch(force: bool, faulty: bool, ghost m: Objects, ghost jobs: seq<Job>, ghost flags: seq<Flags>,
                     ghost done: nat, ghost copied: bool)
      requires Valid() && done <= |jobs| == |flags| && (copied ==> done < |jobs|)
      requires Tracks(jobs, FlagsAfter(m, jobs, flags, done, copied)) &&
               cs.objects == Interrupted(m, jobs, done, copied)
      requires copied ==> force && Occupied(m, jobs, done)
      requires !force ==> NoneOccupied(m, jobs, done)
      modifies pending`updated, pending`backupPath, cs
      ensures disk == old(disk) && memory == old(memory) && pending == old(pending)
      ensures (old(Intact()) ==> Intact()) && (old(Safe()) ==> Safe())
      ensures old(Plain()) ==> Plain()
      ensures Leftover(m, jobs, flags, cs.objects) && SameUploads(jobs, Jobs())
      ensures !faulty && flags == UploadLog.AllFresh(|jobs|) && (force ==> DistinctBackups(jobs)) ==>
                Agree(cs.objects, m, if force then AllBackups(jobs) else {})
    {
      PendingAre(jobs, FlagsAfter(m, jobs, flags, done, copied));
      ghost var after := FlagsAfter(m, jobs, flags, done, copied);
      var ok;
      ghost var left;
      ok, left := RollbackAll(faulty, jobs, after);
      assert LeftBy(m, jobs, flags, done, copied, left, cs.objects);
      if !faulty && flags == UploadLog.AllFresh(|jobs|) && (force ==> DistinctBackups(jobs)) {
        UndoneInFull(m, jobs, done, copied, force, left, cs.objects);
      }
    }

    /** Once everything is uploaded the configuration in memory dangles nowhere. */
    lemma MayBeWritten(m: Objects, jobs: seq<Job>)
      requires |jobs| == |pending| && cs.objects == UploadedTo(m, jobs, |jobs|)
      requires forall i {:trigger pending[i]} :: 0 <= i < |pending| ==> pending[i].Target() == jobs[i].target
      ensures Safe() ==> NoDangling(memory, cs.objects)
    {
      UploadedToGrows(m, jobs, |jobs|);
      forall i | 0 <= i < |pending| ensures pending[i].Target() in cs.objects.Keys {
        assert jobs[i].target in cs.objects;
      }
      assert Targets() <= cs.objects.Keys;
      if Safe() {
        BackedMeansPresent(memory, disk, Targets(), cs.objects);
      }
    }

    /** The end of the batch when everything has been uploaded. */
    method WriteConfig(force: bool, rollbackFaulty: bool, late: bool, ghost m: Objects, ghost jobs: seq<Job>,
                       ghost flags: seq<Flags>)
        returns (r: BatchEnd)
      requires Valid() && |jobs| == |flags| && Tracks(jobs, FlagsAfter(m, jobs, flags, |jobs|, false))
      requires cs.objects == UploadedTo(m, jobs, |jobs|)
      requires !force ==> NoneOccupied(m, jobs, |jobs|)
      modifies this`disk, this`pending, pending`updated, pending`backupPath, cs
      ensures r == if late then UndoneLate else Written
      ensures Valid() && disk == memory && pending == if late then old(pending) else []
      ensures !late ==> Now() == View(memory, memory, [], [], old(cs.objects)) && (old(Safe()) ==> Safe())
      ensures old(Plain()) ==> Plain()
      ensures late ==> Leftover(m, jobs, flags, cs.objects)
      ensures late && !rollbackFaulty && flags == UploadLog.AllFresh(|jobs|) && (force ==> DistinctBackups(jobs)) ==>
                Agree(cs.objects, m, if force then AllBackups(jobs) else {})
    {
      MayBeWritten(m, jobs);
      disk := memory;
      if late {
        UndoBatch(force, rollbackFaulty, m, jobs, flags, |pending|, false);
        return UndoneLate;
      }
      pending := [];
      r := Written;
    }

    lemma FreshMemories()
      ensures AllFresh() ==> Memories() == UploadLog.AllFresh(|pending|)
    {
    }

    /** The non-empty batch of ExecuteUpdateJobs: uploads, then the writing of the
        configuration, or else the rollback. With `late` an interrupt falls between the
        writing and the clearing of the pending list. */
    method RunBatch(force: bool, faulty: bool, rollbackFaulty: bool, late: bool) returns (r: BatchEnd)
      requires Valid()
      modifies this`disk, this`pending, pending, cs
      ensures Valid() && (old(Safe()) && !late ==> Safe())
      ensures late ==> !r.Written?
      ensures !late && memory != old(disk) && old(pending) != [] ==> Executed(old(Now()), Now())
      ensures !force && old(Plain()) ==> Plain()
      ensures r.Written? ==> disk == memory && pending == []
      ensures r.Written? ==> cs.objects == UploadedTo(old(cs.objects), old(Jobs()), |old(pending)|)
      ensures r.Undone? ==> disk == old(disk) && pending == old(pending)
      ensures r.UndoneLate? ==> late && disk == memory && pending == old(pending)
      ensures !r.Written? ==> Leftover(old(cs.objects), old(Jobs()), old(Memories()), cs.objects)
      ensures r.Undone? && !faulty ==> !force && !NoneOccupied(old(cs.objects), old(Jobs()), |old(pending)|)
      ensures !r.Written? && !rollbackFaulty && old(AllFresh()) && (force ==> DistinctBackups(old(Jobs()))) ==>
                Agree(cs.objects, old(cs.objects), if force then AllBackups(old(Jobs())) else {})
    {
      ghost var m, jobs, flags := cs.objects, Jobs(), Memories();
      ghost var was := Now();
      FreshMemories();
      var done;
      ghost var copied;
      done, copied := UploadAll(force, faulty, jobs, flags);
      var written := done == |pending|;
      if faulty {
        if * {
          written := false;
        }
      }
      if written {
        r := WriteConfig(force, rollbackFaulty, late, m, jobs, flags);
      } else {
        assert disk == old(disk);
        UndoBatch(force, rollbackFaulty, m, jobs, flags, done, copied);
        assert disk == old(disk);
        r := Undone;
      }
      if !late && memory != was.disk && was.jobs != [] {
        BatchEffect(was, Now());
      }
    }

    /** Uploads everything pending and then writes the configuration. A failure anywhere,
        the writing included, rolls the uploads back. */
    method ExecuteUpdateJobs(force: bool, faulty: bool, rollbackFaulty: bool, late: bool) returns (r: Outcome)
      requires Valid()
      modifies this`disk, this`pending, pending, cs
      ensures Valid() && (old(Safe()) && !late ==> Safe()) && memory == old(memory)
      ensures (!force || r.Returned?) && old(Plain()) ==> Plain()
      ensures !writable ==> r.Raised? && Now() == old(Now())
      ensures writable && !late ==> Executed(old(Now()), Now())
      ensures r == Returned(false) <==> writable && !old(IsDirty())
      ensures r == Returned(false) || old(pending) == [] ==>
                disk == old(disk) && pending == old(pending) && cs.objects == old(cs.objects)
      ensures r == Returned(true) && old(pending) != [] ==>
                disk == memory && pending == [] &&
                cs.objects == UploadedTo(old(cs.objects), old(Jobs()), |old(pending)|)
      ensures r.Returned? ==> (disk == memory <==> !old(IsDirty()) || old(pending) != [])
      ensures r.Raised? ==> pending == old(pending) && (disk == old(disk) || (late && disk == memory))
      ensures r.Raised? && writable ==> Leftover(old(cs.objects), old(Jobs()), old(Memories()), cs.objects)
      ensures r.Raised? && disk == old(disk) && !faulty ==>
                !writable || (!force && !NoneOccupied(old(cs.objects), old(Jobs()), |old(pending)|))
      ensures r.Raised? && !rollbackFaulty && old(AllFresh()) && (force ==> DistinctBackups(old(Jobs()))) ==>
                Agree(cs.objects, old(cs.objects), if force then AllBackups(old(Jobs())) else {})
      ensures r.Raised? && !rollbackFaulty && old(AllFresh()) &&
              (force ==> DistinctBackups(old(Jobs())) &&
                         forall k :: Names(disk, k) ==> k !in AllBackups(old(Jobs()))) ==>
                (NoDangling(disk, cs.objects) <==> NoDangling(disk, old(cs.objects)))
      ensures old(ContentReady()) && !late ==> Genuine(hash, NamedBy(disk), cs.objects)
      ensures old(Safe() && Clean()) && !late ==> Genuine(hash, NamedBy(disk), cs.objects) && (Plain() ==> Clean())
    {
      if Safe() && Clean() {
        CleanIsReady();
      }
      if !writable {
        return Raised;
      }
      if !IsDirty() {
        return Returned(false);
      }
      if pending != [] {
        ghost var m, jobs := cs.objects, Jobs();
        ghost var flags, named := Memories(), NamedBy(disk);
        var end := RunBatch(force, faulty, rollbackFaulty, late);
        assert memory == old(memory);
        if old(ContentReady()) && !late {
          if end.Written? {
            FullBatchIsGenuine(hash, named, NamedBy(memory), m, jobs);
          } else {
            FailedBatchKeepsContent(hash, named, m, jobs, flags, cs.objects);
          }
        }
        if !end.Written? {
          if !rollbackFaulty && old(AllFresh()) &&
              (force ==> DistinctBackups(jobs) && forall k :: Names(disk, k) ==> k !in AllBackups(jobs)) {
            SameNamed(disk, cs.objects, m, if force then AllBackups(jobs) else {});
          }
          return Raised;
        }
      }
      return Returned(true);
    }

    method SetDownloadPath(dependency: string, platform: string, path: string) returns (r: Outcome)
      requires Valid()
      modifies this`memory
      ensures Valid() && (old(Safe()) ==> Safe()) && (old(Clean()) ==> Clean())
      ensures r == if !writable || dependency !in old(memory) then Raised else Returned(true)
      ensures Now() == old(Now()).(memory := memory)
      ensures memory == if r.Raised? then old(memory) else WithDownloadPath(old(memory), dependency, platform, path)
    {
      if !writable || dependency !in memory {
        return Raised;
      }
      WithDownloadPathKeepsHashes(memory, dependency, platform, path);
      memory := WithDownloadPath(memory, dependency, platform, path);
      return Returned(true);
    }

    /** The checks a job has to pass before anything is changed. `file` is None when
        there is no file to upload. */
    predicate JobAccepted(dependency: string, platform: string, file: Option<Blob>, executeJob: bool)
      reads this
    {
      writable && !(IsDirty() && executeJob) && HasInfo(memory, dependency, platform) && file.Some?
    }

    /** Records the new hash in memory and the upload it needs. */
    method AddJob(dependency: string, platform: string, file: Option<Blob>, version: string, executeJob: bool)
        returns (added: bool)
      requires Valid()
      modifies this`memory, this`pending
      ensures Valid() && (old(Clean()) ==> Clean())
      ensures added <==>
                old(JobAccepted(dependency, platform, file, executeJob)) && old(memory[dependency].bucket) != ""
      ensures memory == if old(JobAccepted(dependency, platform, file, executeJob))
                        then WithHash(old(memory), dependency, platform, hash(file.value), version) else old(memory)
      ensures !added ==> pending == old(pending)
      ensures added ==> |pending| == |old(pending)| + 1 && pending[..|old(pending)|] == old(pending)
      ensures forall i :: 0 <= i < |pending| ==> pending[i] in old(pending) || fresh(pending[i])
      ensures added ==> var u := pending[|old(pending)|]; fresh(u) && u.Memory() == FRESH
      ensures added ==>
                Now() == WithJob(old(Now()), dependency, platform, hash(file.value), file.value, version)
      ensures added || !old(JobAccepted(dependency, platform, file, executeJob)) ==> (old(Safe()) ==> Safe())
      ensures !added && old(JobAccepted(dependency, platform, file, executeJob)) && old(Safe()) ==>
                (Safe() <==> HasHash(disk, dependency, platform, hash(file.value)))
    {
      if !writable || (IsDirty() && executeJob) || !HasInfo(memory, dependency, platform) || file.None? {
        return false;
      }
      if memory[dependency].bucket == "" {
        RecordUnbacked(dependency, platform, hash(file.value), version);
        return false;
      }
      RecordJob(dependency, platform, file.value, version);
      return true;
    }

    /** The hash is recorded, but without a bucket there is no upload for it. */
    method RecordUnbacked(dependency: string, platform: string, h: string, version: string)
      requires Valid() && HasInfo(memory, dependency, platform) && memory[dependency].bucket == ""
      modifies this`memory
      ensures Valid() && memory == WithHash(old(memory), dependency, platform, h, version)
      ensures old(Clean()) && IsDigest(h) ==> Clean()
      ensures old(Safe()) ==> (Safe() <==> HasHash(disk, dependency, platform, h))
    {
      ghost var was, targets := memory, Targets();
      RecordHash(dependency, platform, h, version);
      if old(Safe()) {
        BackedWithHash(was, disk, targets, targets, dependency, platform, h, version);
        assert RemoteKey(dependency, was[dependency], h) !in targets;
      }
    }

    method RecordJob(dependency: string, platform: string, file: Blob, version: string)
      requires Valid() && HasInfo(memory, dependency, platform) && memory[dependency].bucket != ""
      modifies this`memory, this`pending
      ensures Valid() && (old(Safe()) ==> Safe()) && (old(Clean()) ==> Clean())
      ensures Now() == WithJob(old(Now()), dependency, platform, hash(file), file, version)
      ensures |pending| == |old(pending)| + 1 && pending[..|old(pending)|] == old(pending)
      ensures var u := pending[|old(pending)|]; fresh(u) && u.Memory() == FRESH
    {
      var h, d := hash(file), memory[dependency];
      ghost var was, targets := memory, Targets();
      RecordHash(dependency, platform, h, version);
      if old(Clean()) {
        RemotePathTellsHash(dependency, h, d.baseFolder);
      }
      ghost var u := AppendSafely(d.bucket, CloudStorageRemotePath(dependency, h, d.baseFolder), file);
      if old(Safe()) {
        BackedWithHash(was, disk, targets, Targets(), dependency, platform, h, version);
      }
    }

    method RecordHash(dependency: string, platform: string, h: string, version: string)
      requires Valid() && HasInfo(memory, dependency, platform)
      modifies this`memory
      ensures Valid() && (old(Intact()) ==> Intact())
      ensures memory == WithHash(old(memory), dependency, platform, h, version) && Targets() == old(Targets())
      ensures Now() == old(Now()).(memory := memory)
      ensures old(DigestsOnly(memory)) && IsDigest(h) ==> DigestsOnly(memory)
    {
      DigestsWithHash(memory, dependency, platform, h, version);
      memory := WithHash(memory, dependency, platform, h, version);
    }

    method AppendUpload(bucket: string, remotePath: string, source: Blob) returns (ghost u: CloudStorageUploader)
      requires Valid() && bucket != "" && remotePath != ""
      modifies this`pending
      ensures Valid() && pending == old(pending) + [u] && fresh(u) && u.Memory() == FRESH && u.Plain()
      ensures u.source == source && u.Target() == Key(bucket, remotePath)
      ensures var job := Job(Key(bucket, remotePath), Key(bucket, remotePath + "." + BACKUP_PATH_EXTENSION), source);
              Now() == old(Now()).(jobs := old(Jobs()) + [job], flags := old(Memories()) + [FRESH])
    {
      var v := new CloudStorageUploader(bucket, remotePath, source);
      pending := pending + [v];
      u := v;
    }

    /** AppendUpload with what it means for the file on disk. */
    method AppendSafely(bucket: string, remotePath: string, source: Blob) returns (ghost u: CloudStorageUploader)
      requires Valid() && bucket != "" && remotePath != ""
      modifies this`pending
      ensures Valid() && pending == old(pending) + [u] && fresh(u) && u.Memory() == FRESH
      ensures (old(Intact()) ==> Intact()) && Targets() == old(Targets()) + {Key(bucket, remotePath)}
      ensures old(Plain()) && Tail(remotePath) == hash(source) ==> Plain()
      ensures var job := Job(Key(bucket, remotePath), Key(bucket, remotePath + "." + BACKUP_PATH_EXTENSION), source);
              Now() == old(Now()).(jobs := old(Jobs()) + [job], flags := old(Memories()) + [FRESH])
    {
      ghost var targets := Targets();
      u := AppendUpload(bucket, remotePath, source);
      assert Targets() == targets + {u.Target()};
      if old(Plain()) && Tail(remotePath) == hash(source) {
        forall i | 0 <= i < |pending| ensures PlainUpload(hash, pending[i]) {
          assert i < |old(pending)| ==> pending[i] == old(pending)[i] && old(PlainUpload(hash, pending[i]));
        }
      }
    }

    /** What the checks ask for: a writable configuration that has something for the pair, a
        file, and no unsaved change when the job is to be executed. */
    lemma JobAcceptedIff(dependency: string, platform: string, file: Option<Blob>, executeJob: bool)
      ensures JobAccepted(dependency, platform, file, executeJob) <==>
              && writable && file.Some? && HasInfo(memory, dependency, platform) && (executeJob ==> memory == disk)
    {
    }

    method AddCloudStorageDependencyUpdateJob(dependency: string, platform: string, file: Option<Blob>, version: string,
          executeJob: bool, faulty: bool, rollbackFaulty: bool, late: bool)
        returns (r: Outcome)
      requires Valid()
      modifies this, pending, cs
      ensures Valid()
      ensures forall i :: 0 <= i < |pending| ==> pending[i] in old(pending) || fresh(pending[i])
      ensures memory == if old(JobAccepted(dependency, platform, file, executeJob))
                        then WithHash(old(memory), dependency, platform, hash(file.value), version) else old(memory)
      ensures !(old(JobAccepted(dependency, platform, file, executeJob)) && old(memory[dependency].bucket) != "") ==>
                r.Raised? && disk == old(disk) && pending == old(pending) && cs.objects == old(cs.objects)
      ensures r.Returned? && executeJob ==> disk == memory
      ensures !executeJob ==> disk == old(disk) && cs.objects == old(cs.objects)
      ensures !old(JobAccepted(dependency, platform, file, executeJob)) || old(memory[dependency].bucket) != "" ==>
                (old(Safe()) && !late ==> Safe() && (old(Clean()) ==> Clean()))
      ensures r == Raised || r == Returned(true)
      ensures !late && (dependency in old(memory) ==> old(memory[dependency].bucket) != "") ==>
              Effect(writable, hash, Update(dependency, platform, file, version, executeJob), old(Now()), Now())
    {
      ghost var v := Now();
      var added := AddJob(dependency, platform, file, version, executeJob);
      ghost var u := Now();
      r := if added then Returned(true) else Raised;
      if added && executeJob {
        r := ExecuteAdded(faulty, rollbackFaulty, late);
      }
      if !late && (dependency in v.memory ==> v.memory[dependency].bucket != "") {
        UpdateEffect(writable, hash, Update(dependency, platform, file, version, executeJob), v, u, Now());
      }
    }

    /** Executes right after a job has been added. */
    method ExecuteAdded(faulty: bool, rollbackFaulty: bool, late: bool) returns (r: Outcome)
      requires Valid() && writable && pending != []
      modifies this`disk, this`pending, pending, cs
      ensures Valid() && memory == old(memory) && (pending == old(pending) || pending == [])
      ensures r == Raised || (r == Returned(true) && disk == memory)
      ensures !late ==> Executed(old(Now()), Now())
      ensures old(Safe()) && !late ==> Safe() && (old(Clean()) ==> Clean())
    {
      var e := ExecuteUpdateJobs(false, faulty, rollbackFaulty, late);
      r := if e.Raised? then Raised else Returned(true);
    }

    /** Every dependency names a bucket. */
    ghost predicate NamesBuckets()
      reads this
    {
      forall dep :: dep in memory ==> memory[dep].bucket != ""
    }

    /** One operation of a run; anything in it may fail. `spoiled` tells that a forced batch
        has failed, whose uploaders keep backups. */
    method Perform(op: Op) returns (spoiled: bool)
      requires Valid() && Safe() && NamesBuckets()
      requires op.AddDependency? ==> op.bucket != ""
      modifies this, pending, cs
      ensures Valid() && Safe() && NamesBuckets()
      ensures forall i :: 0 <= i < |pending| ==> pending[i] in old(pending) || fresh(pending[i])
      ensures Effect(writable, hash, op, old(Now()), Now())
      ensures spoiled ==> op.Execute? && op.force
      ensures old(Clean()) ==> Genuine(hash, NamedBy(disk), cs.objects) && (!spoiled ==> Clean())
    {
      spoiled := false;
      match op
      case AddDependency(dependency, baseFolder, bucket) =>
        var _ := AddNewDependency(dependency, baseFolder, bucket);
      case SetPath(dependency, platform, path) =>
        if dependency in memory {
          WithDownloadPathKeepsHashes(memory, dependency, platform, path);
        }
        var _ := SetDownloadPath(dependency, platform, path);
      case Update(dependency, platform, file, version, executeJob) =>
        if JobAccepted(dependency, platform, file, executeJob) {
          WithHashKeepsRest(memory, dependency, platform, hash(file.value), version);
        }
        var _ := AddCloudStorageDependencyUpdateJob(dependency, platform, file, version, executeJob, true, true, false);
      case Execute(force) =>
        var r := ExecuteUpdateJobs(force, true, true, false);
        spoiled := force && r.Raised?;
    }

    /** Any sequence of operations, whatever fails in them and in their rollbacks, leaves a
        file on disk whose every hash has its object in cloud storage; and the object has
        that hash, until something is done after a forced batch has failed. */
    method Run(ops: seq<Op>) returns (spoiled: bool, ghost history: seq<View>)
      requires Valid() && Safe() && NamesBuckets()
      requires forall k :: 0 <= k < |ops| && ops[k].AddDependency? ==> ops[k].bucket != ""
      modifies this, pending, cs
      ensures Valid() && Safe() && NoDangling(disk, cs.objects)
      ensures IsRun(writable, hash, ops, history) && history[0] == old(Now()) && history[|ops|] == Now()
      ensures spoiled ==> exists k :: 0 <= k < |ops| - 1 && ops[k].Execute? && ops[k].force
      ensures old(Clean()) && !spoiled ==> Genuine(hash, NamedBy(disk), cs.objects)
    {
      spoiled := false;
      history := [Now()];
      var last := false;
      for k := 0 to |ops|
        invariant IsRun(writable, hash, ops[..k], history) && history[0] == old(Now()) && history[k] == Now()
        invariant Valid() && Safe() && NamesBuckets()
        invariant forall i :: 0 <= i < |pending| ==> pending[i] in old(pending) || fresh(pending[i])
        invariant last ==> k > 0 && ops[k - 1].Execute? && ops[k - 1].force
        invariant spoiled ==> exists l :: 0 <= l < k - 1 && ops[l].Execute? && ops[l].force
        invariant old(Clean()) && !spoiled ==> Genuine(hash, NamedBy(disk), cs.objects) && (!last ==> Clean())
      {
        spoiled := spoiled || last;
        last := Perform(ops[k]);
        history := history + [Now()];
        assert ops[..k + 1] == ops[..k] + [ops[k]];
      }
      assert ops[..|ops|] == ops;
    }
  }

  /** An interrupt after the file is written still rolls the uploads back. That is harmless
      if and only if every object the file names was in the store before the batch. */
  lemma LateRollbackIff(disk: Config, m: Objects, jobs: seq<Job>, force: bool)
    requires !force ==> NoneOccupied(m, jobs, |jobs|)
    requires force ==> DistinctBackups(jobs) && forall k :: Names(disk, k) ==> k !in AllBackups(jobs)
    ensures var r := RolledBackFrom(UploadedTo(m, jobs, |jobs|), jobs, FlagsOf(m, jobs, |jobs|, false), |jobs|);
            r.Some? && (NoDangling(disk, r.value) <==> NoDangling(disk, m))
  {
    LateRollback(m, jobs, force);
    var r := RolledBackFrom(UploadedTo(m, jobs, |jobs|), jobs, FlagsOf(m, jobs, |jobs|, false), |jobs|).value;
    SameNamed(disk, r, m, if force then AllBackups(jobs) else {});
  }

  /** Rolling back a whole batch, outside the backups. */
  lemma LateRollback(m: Objects, jobs: seq<Job>, force: bool)
    requires !force ==> NoneOccupied(m, jobs, |jobs|)
    requires force ==> DistinctBackups(jobs)
    ensures var r := RolledBackFrom(UploadedTo(m, jobs, |jobs|), jobs, FlagsOf(m, jobs, |jobs|, false), |jobs|);
            r.Some? && Agree(r.value, m, if force then AllBackups(jobs) else {})
  {
    StoppedBatchRestores(m, jobs, |jobs|, false, force);
    assert Interrupted(m, jobs, |jobs|, false) == UploadedTo(m, jobs, |jobs|);
  }

  /** Stores that agree on what the configuration names dangle together. */
  lemma SameNamed(disk: Config, a: Objects, b: Objects, except: set<Key>)
    requires Agree(a, b, except) && forall k :: Names(disk, k) ==> k !in except
    ensures NoDangling(disk, a) <==> NoDangling(disk, b)
  {
    forall dep, plat, h | HasHash(disk, dep, plat, h)
      ensures RemoteKey(dep, disk[dep], h) in a <==> RemoteKey(dep, disk[dep], h) in b
    {
      assert Names(disk, RemoteKey(dep, disk[dep], h));
    }
  }

  /** So an interrupt leaves a dangling hash whenever the batch is what put its object there. */
  lemma LateRollbackDangles(disk: Config, dependency: string, platform: string, h: string, m: Objects,
                            jobs: seq<Job>, force: bool)
    requires HasHash(disk, dependency, platform, h) && RemoteKey(dependency, disk[dependency], h) !in m
    requires !force ==> NoneOccupied(m, jobs, |jobs|)
    requires force ==> DistinctBackups(jobs) && RemoteKey(dependency, disk[dependency], h) !in AllBackups(jobs)
    ensures var r := RolledBackFrom(UploadedTo(m, jobs, |jobs|), jobs, FlagsOf(m, jobs, |jobs|, false), |jobs|);
            r.Some? && !NoDangling(disk, r.value)
  {
    LateRollback(m, jobs, force);
  }
}
