/** Whether the objects that a configuration names also have the named hash, through
    batches of uploads and whatever their rollbacks get to. */
module UploadContent {
  import opened Basics
  import opened UploadLog

  /** CalculateHash. */
  type Hashing = Blob -> string

  /** The keys that a configuration names, with the hash each object should have. */
  type Named = set<(Key, string)>

  ghost predicate Genuine(hash: Hashing, named: Named, m: Objects) {
    forall p <- named :: p.0 in m && hash(m[p.0]) == p.1
  }

  /** The upload brings what the configuration expects at its target, and its backup does
      not stand where the configuration expects something. */
  ghost predicate Honest(hash: Hashing, named: Named, j: Job) {
    forall p <- named :: (p.0 == j.target ==> hash(j.source) == p.1) && p.0 != j.backup
  }

  ghost predicate AllHonest(hash: Hashing, named: Named, jobs: seq<Job>) {
    forall i {:trigger jobs[i]} :: 0 <= i < |jobs| ==> Honest(hash, named, jobs[i])
  }

  /** The configuration expects the same at both keys. */
  ghost predicate SameExpected(named: Named, k: Key, l: Key) {
    forall h :: (k, h) in named <==> (l, h) in named
  }

  /** No backup stands where an upload goes. */
  ghost predicate NoBackupIsTarget(jobs: seq<Job>) {
    forall i, j :: 0 <= i < |jobs| && 0 <= j < |jobs| ==> jobs[i].backup != jobs[j].target
  }

  /** Targets with one backup are one target, or the same is expected at them. */
  ghost predicate Unshared(named: Named, jobs: seq<Job>) {
    && NoBackupIsTarget(jobs)
    && forall i, j :: 0 <= i < |jobs| && 0 <= j < |jobs| && jobs[i].backup == jobs[j].backup ==>
         SameExpected(named, jobs[i].target, jobs[j].target)
  }

  /** A backup that was taken holds what the configuration expects at the target. */
  ghost predicate GoodBackup(hash: Hashing, named: Named, m: Objects, j: Job, f: Flags) {
    f.backedUp && j.backup in m ==> forall p <- named :: p.0 == j.target ==> hash(m[j.backup]) == p.1
  }

  /** Deleting the target takes nothing that the configuration names. */
  ghost predicate Spared(named: Named, j: Job, f: Flags) {
    f.updated && !f.backedUp ==> forall p <- named :: p.0 != j.target
  }

  /** The store is genuine and every upload can be undone without changing that. */
  ghost predicate Sound(hash: Hashing, named: Named, m: Objects, jobs: seq<Job>, flags: seq<Flags>)
    requires |jobs| == |flags|
  {
    && Genuine(hash, named, m)
    && forall i {:trigger flags[i]} :: 0 <= i < |jobs| ==>
         GoodBackup(hash, named, m, jobs[i], flags[i]) && Spared(named, jobs[i], flags[i])
  }

  lemma BackupKeepsSound(hash: Hashing, named: Named, m: Objects, jobs: seq<Job>, flags: seq<Flags>, i: nat, f: Flags)
    requires i < |jobs| == |flags| && AllHonest(hash, named, jobs) && Unshared(named, jobs) &&
             Sound(hash, named, m, jobs, flags)
    requires f.backedUp && jobs[i].target in m
    ensures Sound(hash, named, BackedUp(m, jobs[i]), jobs, flags[i := f])
  {
    var now := BackedUp(m, jobs[i]);
    assert Honest(hash, named, jobs[i]);
    forall l | 0 <= l < |jobs|
      ensures GoodBackup(hash, named, now, jobs[l], flags[i := f][l]) && Spared(named, jobs[l], flags[i := f][l])
    {
      assert l != i ==> flags[i := f][l] == flags[l];
      if jobs[l].backup == jobs[i].backup {
        assert SameExpected(named, jobs[i].target, jobs[l].target);
      }
    }
  }

  lemma InsertKeepsSound(hash: Hashing, named: Named, m: Objects, jobs: seq<Job>, flags: seq<Flags>, i: nat)
    requires i < |jobs| == |flags| && AllHonest(hash, named, jobs) && Unshared(named, jobs) &&
             Sound(hash, named, m, jobs, flags)
    requires jobs[i].target in m ==> flags[i].backedUp
    ensures Sound(hash, named, m[jobs[i].target := jobs[i].source], jobs, flags[i := Flags(flags[i].backedUp, true)])
  {
    var now, after := m[jobs[i].target := jobs[i].source], flags[i := Flags(flags[i].backedUp, true)];
    assert Honest(hash, named, jobs[i]);
    forall l | 0 <= l < |jobs|
      ensures GoodBackup(hash, named, now, jobs[l], after[l]) && Spared(named, jobs[l], after[l])
    {
      assert GoodBackup(hash, named, m, jobs[l], flags[l]) && Spared(named, jobs[l], flags[l]);
      assert l != i ==> after[l] == flags[l];
    }
  }

  lemma UploadKeepsSound(hash: Hashing, named: Named, m: Objects, jobs: seq<Job>, flags: seq<Flags>, i: nat)
    requires i < |jobs| == |flags| && AllHonest(hash, named, jobs) && Unshared(named, jobs) &&
             Sound(hash, named, m, jobs, flags)
    ensures Sound(hash, named, Uploaded(m, jobs[i]), jobs,
            flags[i := Flags(flags[i].backedUp || jobs[i].target in m, true)])
  {
    if jobs[i].target in m {
      var f := Flags(true, flags[i].updated);
      BackupKeepsSound(hash, named, m, jobs, flags, i, f);
      InsertKeepsSound(hash, named, BackedUp(m, jobs[i]), jobs, flags[i := f], i);
      assert flags[i := f][i := Flags(true, true)] == flags[i := Flags(true, true)];
    } else {
      InsertKeepsSound(hash, named, m, jobs, flags, i);
    }
  }

  lemma {:induction false} UploadsKeepSound(hash: Hashing, named: Named, m: Objects, jobs: seq<Job>,
      flags: seq<Flags>, n: nat)
    requires n <= |jobs| == |flags| && AllHonest(hash, named, jobs) && Unshared(named, jobs) &&
             Sound(hash, named, m, jobs, flags)
    ensures Sound(hash, named, UploadedTo(m, jobs, n), jobs, FlagsTo(m, jobs, flags, n))
  {
    if n > 0 {
      UploadsKeepSound(hash, named, m, jobs, flags, n - 1);
      NextUpload(m, jobs, flags, n);
      var before, was := UploadedTo(m, jobs, n - 1), FlagsTo(m, jobs, flags, n - 1);
      NextKeepsSound(hash, named, before, UploadedTo(m, jobs, n), jobs, was, FlagsTo(m, jobs, flags, n), n - 1);
    }
  }

  lemma NextUpload(m: Objects, jobs: seq<Job>, flags: seq<Flags>, n: nat)
    requires 0 < n <= |jobs| == |flags|
    ensures UploadedTo(m, jobs, n) == Uploaded(UploadedTo(m, jobs, n - 1), jobs[n - 1])
    ensures var was, i := FlagsTo(m, jobs, flags, n - 1), n - 1;
            FlagsTo(m, jobs, flags, n) ==
              was[i := Flags(was[i].backedUp || jobs[i].target in UploadedTo(m, jobs, i), true)]
  {
    FlagsToAt(m, jobs, flags, n - 1, n - 1);
  }

  lemma NextKeepsSound(hash: Hashing, named: Named, before: Objects, now: Objects, jobs: seq<Job>, was: seq<Flags>,
                       after: seq<Flags>, i: nat)
    requires i < |jobs| == |was| && AllHonest(hash, named, jobs) && Unshared(named, jobs) &&
             Sound(hash, named, before, jobs, was)
    requires now == Uploaded(before, jobs[i]) &&
             after == was[i := Flags(was[i].backedUp || jobs[i].target in before, true)]
    ensures Sound(hash, named, now, jobs, after)
  {
    UploadKeepsSound(hash, named, before, jobs, was, i);
  }

  lemma UndoKeepsSound(hash: Hashing, named: Named, m: Objects, jobs: seq<Job>, flags: seq<Flags>, i: nat)
    requires i < |jobs| == |flags| && Unshared(named, jobs) && Sound(hash, named, m, jobs, flags)
    requires RolledBack(m, jobs[i], flags[i]).Some?
    ensures Sound(hash, named, RolledBack(m, jobs[i], flags[i]).value, jobs, flags)
  {
    var now := RolledBack(m, jobs[i], flags[i]).value;
    assert GoodBackup(hash, named, m, jobs[i], flags[i]) && Spared(named, jobs[i], flags[i]);
    forall l | 0 <= l < |jobs|
      ensures GoodBackup(hash, named, now, jobs[l], flags[l]) && Spared(named, jobs[l], flags[l])
    {
      RolledBackTouchesTarget(m, jobs[i], flags[i], jobs[l].backup);
    }
  }

  lemma {:induction false} RollbackKeepsSound(hash: Hashing, named: Named, m: Objects, jobs: seq<Job>,
      flags: seq<Flags>, n: nat, left: nat)
    requires left <= n <= |jobs| == |flags| && Unshared(named, jobs) && Sound(hash, named, m, jobs, flags)
    requires RolledBackDownTo(m, jobs, flags, n, left).Some?
    ensures Sound(hash, named, RolledBackDownTo(m, jobs, flags, n, left).value, jobs, flags)
    decreases n
  {
    if left < n {
      UndoKeepsSound(hash, named, m, jobs, flags, n - 1);
      RollbackKeepsSound(hash, named, RolledBack(m, jobs[n - 1], flags[n - 1]).value, jobs, flags, n - 1, left);
    }
  }

  /** Wherever a batch and its rollback stop, every object that the configuration names
      still has its hash, if different targets have different backups. */
  lemma FailedBatchKeepsContent(hash: Hashing, named: Named, m: Objects, jobs: seq<Job>, flags: seq<Flags>,
                                now: Objects)
    requires |jobs| == |flags| && AllHonest(hash, named, jobs) && Unshared(named, jobs) &&
             Sound(hash, named, m, jobs, flags)
    requires Leftover(m, jobs, flags, now)
    ensures Genuine(hash, named, now)
  {
    var done: nat, copied: bool, left: nat :| LeftBy(m, jobs, flags, done, copied, left, now);
    UploadsKeepSound(hash, named, m, jobs, flags, done);
    if copied {
      FlagsToAt(m, jobs, flags, done, done);
      BackupKeepsSound(hash, named, UploadedTo(m, jobs, done), jobs, FlagsTo(m, jobs, flags, done), done,
                       Flags(true, flags[done].updated));
    }
    RollbackKeepsSound(hash, named, Interrupted(m, jobs, done, copied), jobs,
        FlagsAfter(m, jobs, flags, done, copied), |jobs|, left);
  }

  /** After a whole batch the configuration to be written finds its hashes, those that it
      had before and those of the uploads. */
  lemma FullBatchIsGenuine(hash: Hashing, named: Named, more: Named, m: Objects, jobs: seq<Job>)
    requires AllHonest(hash, more, jobs) && Genuine(hash, named, m)
    requires forall p <- more :: p in named || exists i :: 0 <= i < |jobs| && jobs[i].target == p.0
    ensures Genuine(hash, more, UploadedTo(m, jobs, |jobs|))
  {
    forall p | p in more
      ensures p.0 in UploadedTo(m, jobs, |jobs|) && hash(UploadedTo(m, jobs, |jobs|)[p.0]) == p.1
    {
      TargetOrOld(hash, more, m, jobs, |jobs|, p);
    }
  }

  lemma {:induction false} TargetOrOld(hash: Hashing, more: Named, m: Objects, jobs: seq<Job>, n: nat, p: (Key, string))
    requires n <= |jobs| && AllHonest(hash, more, jobs) && p in more
    requires (p.0 in m && hash(m[p.0]) == p.1) || exists i :: 0 <= i < n && jobs[i].target == p.0
    ensures p.0 in UploadedTo(m, jobs, n) && hash(UploadedTo(m, jobs, n)[p.0]) == p.1
  {
    if n > 0 {
      assert Honest(hash, more, jobs[n - 1]);
      if jobs[n - 1].target != p.0 {
        TargetOrOld(hash, more, m, jobs, n - 1, p);
      }
    }
  }

  /** Backups as fresh uploaders take them are never shared by different targets. */
  lemma FreshBatchIsSound(hash: Hashing, named: Named, m: Objects, jobs: seq<Job>)
    requires KeyedByTarget(jobs) && Genuine(hash, named, m)
    ensures Unshared(named, jobs) && Sound(hash, named, m, jobs, AllFresh(|jobs|))
  {
  }

  // ----- exactly when the contents are safe

  /** Whatever fails and wherever, the named objects keep their hashes. */
  ghost predicate StaysGenuine(hash: Hashing, named: Named, m: Objects, jobs: seq<Job>, flags: seq<Flags>)
    requires |jobs| == |flags|
  {
    forall now :: Leftover(m, jobs, flags, now) ==> Genuine(hash, named, now)
  }

  ghost predicate AllNamed(named: Named, jobs: seq<Job>) {
    forall i {:trigger jobs[i]} :: 0 <= i < |jobs| ==> exists p :: p in named && p.0 == jobs[i].target
  }

  ghost predicate AllSpared(named: Named, jobs: seq<Job>, flags: seq<Flags>)
    requires |jobs| == |flags|
  {
    forall i {:trigger flags[i]} :: 0 <= i < |jobs| ==> Spared(named, jobs[i], flags[i])
  }

  /** One of the first `d` uploads has the backup key `b`. */
  ghost predicate Writes(jobs: seq<Job>, d: nat, b: Key)
    requires d <= |jobs|
  {
    exists l :: 0 <= l < d && jobs[l].backup == b
  }

  /** With the backups of the first `d` uploads written, a rollback gets as far as item `i`:
      the later ones have the backups that they remember. */
  ghost predicate GetsTo(m: Objects, jobs: seq<Job>, flags: seq<Flags>, d: nat, i: nat)
    requires |jobs| == |flags| && d <= |jobs|
  {
    forall k {:trigger flags[k]} :: i < k < |jobs| && flags[k].backedUp ==>
      jobs[k].backup in m || Writes(jobs, d, jobs[k].backup)
  }

  /** A backup from an earlier try is good, if a rollback can get to it before an upload of
      this try has written it anew. */
  ghost predicate OldBackupsGood(hash: Hashing, named: Named, m: Objects, jobs: seq<Job>, flags: seq<Flags>)
    requires |jobs| == |flags|
  {
    forall d: nat, i: nat {:trigger GetsTo(m, jobs, flags, d, i)} ::
      d <= i < |jobs| && !Writes(jobs, d, jobs[i].backup) && GetsTo(m, jobs, flags, d, i) ==>
        GoodBackup(hash, named, m, jobs[i], flags[i])
  }

  /** Whatever the uploaders remember from earlier tries, forced uploads to named keys are
      harmless if and only if the same hash is expected at targets that share a backup, and
      the old backups that a rollback can use are good. */
  lemma StaysGenuineIff(hash: Hashing, named: Named, m: Objects, jobs: seq<Job>, flags: seq<Flags>)
    requires |jobs| == |flags| && AllHonest(hash, named, jobs) && NoBackupIsTarget(jobs) && AllNamed(named, jobs)
    requires Genuine(hash, named, m) && AllSpared(named, jobs, flags)
    ensures StaysGenuine(hash, named, m, jobs, flags) <==>
            Unshared(named, jobs) && OldBackupsGood(hash, named, m, jobs, flags)
  {
    if !Unshared(named, jobs) {
      var i, j :| 0 <= i < |jobs| && 0 <= j < |jobs| && jobs[i].backup == jobs[j].backup
                  && !SameExpected(named, jobs[i].target, jobs[j].target);
      SharedBackupMixesUp(hash, named, m, jobs, flags, i, j);
    } else if !OldBackupsGood(hash, named, m, jobs, flags) {
      var d: nat, i: nat :| d <= i < |jobs| && !Writes(jobs, d, jobs[i].backup) && GetsTo(m, jobs, flags, d, i)
                            && !GoodBackup(hash, named, m, jobs[i], flags[i]);
      BadBackupIsUsed(hash, named, m, jobs, flags, d, i);
    } else {
      forall now | Leftover(m, jobs, flags, now) ensures Genuine(hash, named, now) {
        GoodBackupsSuffice(hash, named, m, jobs, flags, now);
      }
    }
  }

  /** When all old backups are good, sharing is what matters. */
  lemma SoundStaysGenuineIff(hash: Hashing, named: Named, m: Objects, jobs: seq<Job>, flags: seq<Flags>)
    requires |jobs| == |flags| && AllHonest(hash, named, jobs) && NoBackupIsTarget(jobs) && AllNamed(named, jobs)
    requires Sound(hash, named, m, jobs, flags)
    ensures StaysGenuine(hash, named, m, jobs, flags) <==> Unshared(named, jobs)
  {
    StaysGenuineIff(hash, named, m, jobs, flags);
  }

  /** The same for fresh uploaders and every store. */
  ghost predicate AlwaysGenuine(hash: Hashing, named: Named, jobs: seq<Job>) {
    forall m :: Genuine(hash, named, m) ==> StaysGenuine(hash, named, m, jobs, AllFresh(|jobs|))
  }

  lemma AlwaysGenuineIff(hash: Hashing, named: Named, jobs: seq<Job>, m: Objects)
    requires AllHonest(hash, named, jobs) && NoBackupIsTarget(jobs) && AllNamed(named, jobs) && Genuine(hash, named, m)
    ensures AlwaysGenuine(hash, named, jobs) <==> Unshared(named, jobs)
  {
    forall n | Genuine(hash, named, n)
      ensures StaysGenuine(hash, named, n, jobs, AllFresh(|jobs|)) <==> Unshared(named, jobs)
    {
      SoundStaysGenuineIff(hash, named, n, jobs, AllFresh(|jobs|));
    }
  }

  // ----- both conditions are needed

  /** What is undone last gets what its backup holds, when each item undone has one. */
  lemma {:induction false} LastUndone(now: Objects, jobs: seq<Job>, flags: seq<Flags>, n: nat, i: nat)
    requires i < n <= |jobs| == |flags| && NoBackupIsTarget(jobs) && flags[i].backedUp
    requires forall k {:trigger flags[k]} :: i <= k < n ==>
               if flags[k].backedUp then jobs[k].backup in now else !flags[k].updated
    ensures var r := RolledBackDownTo(now, jobs, flags, n, i);
            r.Some? && jobs[i].target in r.value && r.value[jobs[i].target] == now[jobs[i].backup]
    decreases n
  {
    assert flags[n - 1].backedUp ==> jobs[n - 1].backup in now;
    var next := RolledBack(now, jobs[n - 1], flags[n - 1]).value;
    if n == i + 1 {
      assert RolledBackDownTo(next, jobs, flags, i, i) == Some(next);
    } else {
      LastUndone(next, jobs, flags, n - 1, i);
    }
  }

  lemma {:induction false} BackupsAreWritten(m: Objects, jobs: seq<Job>, n: nat, k: nat)
    requires k < n <= |jobs| && jobs[k].target in m
    ensures jobs[k].backup in UploadedTo(m, jobs, n)
  {
    if k < n - 1 {
      BackupsAreWritten(m, jobs, n - 1, k);
    } else {
      UploadedToGrows(m, jobs, k);
    }
  }

  /** A target that is named is in the store, so its upload takes a backup. */
  lemma NamedIsOccupied(hash: Hashing, named: Named, m: Objects, jobs: seq<Job>, i: nat)
    requires AllNamed(named, jobs) && Genuine(hash, named, m) && i < |jobs|
    ensures jobs[i].target in m && Occupied(m, jobs, i)
  {
    assert jobs[i].target in m;
    UploadedToGrows(m, jobs, i);
  }

  /** The last of the first `n` uploads with the backup key of `i`. */
  lemma LastWith(jobs: seq<Job>, n: nat, i: nat) returns (l: nat)
    requires i < n <= |jobs|
    ensures i <= l < n && jobs[l].backup == jobs[i].backup
    ensures forall k :: l < k < n ==> jobs[k].backup != jobs[i].backup
  {
    l := i;
    var k := i + 1;
    while k < n
      invariant i <= l < k <= n && jobs[l].backup == jobs[i].backup
      invariant forall x :: l < x < k ==> jobs[x].backup != jobs[i].backup
    {
      if jobs[k].backup == jobs[i].backup {
        l := k;
      }
      k := k + 1;
    }
  }

  /** Everything is uploaded, so each target has a backup; a shared one holds what the last
      of its users found, and undoing goes back to another user of it. */
  lemma SharedBackupMixesUp(hash: Hashing, named: Named, m: Objects, jobs: seq<Job>, flags: seq<Flags>, i: nat, j: nat)
    requires |jobs| == |flags| && AllHonest(hash, named, jobs) && NoBackupIsTarget(jobs) && AllNamed(named, jobs)
    requires Genuine(hash, named, m) && i < |jobs| && j < |jobs| && jobs[i].backup == jobs[j].backup
    requires !SameExpected(named, jobs[i].target, jobs[j].target)
    ensures !StaysGenuine(hash, named, m, jobs, flags)
  {
    var l := LastWith(jobs, |jobs|, if i < j then i else j);
    var v := if SameExpected(named, jobs[i].target, jobs[l].target) then j else i;
    assert !SameExpected(named, jobs[v].target, jobs[l].target) && v <= l;
    MixedUp(hash, named, m, jobs, flags, v, l);
  }

  lemma MixedUp(hash: Hashing, named: Named, m: Objects, jobs: seq<Job>, flags: seq<Flags>, v: nat, l: nat)
    requires |jobs| == |flags| && AllHonest(hash, named, jobs) && NoBackupIsTarget(jobs) && AllNamed(named, jobs)
    requires Genuine(hash, named, m) && v <= l < |jobs| && jobs[v].backup == jobs[l].backup
    requires forall k :: l < k < |jobs| ==> jobs[k].backup != jobs[l].backup
    requires !SameExpected(named, jobs[v].target, jobs[l].target)
    ensures !StaysGenuine(hash, named, m, jobs, flags)
  {
    var n := |jobs|;
    var all, after := UploadedTo(m, jobs, n), FlagsAfter(m, jobs, flags, n, false);
    AllBackedUp(hash, named, m, jobs, flags);
    LastUndone(all, jobs, after, n, v);
    var now := RolledBackDownTo(all, jobs, after, n, v).value;
    assert LeftBy(m, jobs, flags, n, false, v, now);
    assert Leftover(m, jobs, flags, now);
    var p :| p in named && p.0 == jobs[v].target;
    var q :| q in named && q.0 == jobs[l].target;
    LastCopy(hash, named, m, jobs, l, q);
    ExpectedOnce(hash, named, m, p, q);
    assert now[p.0] == all[jobs[l].backup];
  }

  /** What the last upload with a backup key leaves there. */
  lemma LastCopy(hash: Hashing, named: Named, m: Objects, jobs: seq<Job>, l: nat, q: (Key, string))
    requires AllHonest(hash, named, jobs) && NoBackupIsTarget(jobs) && AllNamed(named, jobs) && Genuine(hash, named, m)
    requires l < |jobs| && forall k :: l < k < |jobs| ==> jobs[k].backup != jobs[l].backup
    requires q in named && q.0 == jobs[l].target
    ensures var all := UploadedTo(m, jobs, |jobs|); jobs[l].backup in all && hash(all[jobs[l].backup]) == q.1
  {
    NamedIsOccupied(hash, named, m, jobs, l);
    BackupSurvives(m, jobs, l, |jobs|);
    TargetOrOld(hash, named, m, jobs, l, q);
  }

  lemma AllBackedUp(hash: Hashing, named: Named, m: Objects, jobs: seq<Job>, flags: seq<Flags>)
    requires |jobs| == |flags| && AllNamed(named, jobs) && Genuine(hash, named, m)
    ensures var after := FlagsAfter(m, jobs, flags, |jobs|, false);
            forall k {:trigger after[k]} :: 0 <= k < |jobs| ==>
              after[k].backedUp && jobs[k].backup in UploadedTo(m, jobs, |jobs|)
  {
    var after := FlagsAfter(m, jobs, flags, |jobs|, false);
    forall k | 0 <= k < |jobs| ensures after[k].backedUp && jobs[k].backup in UploadedTo(m, jobs, |jobs|) {
      NamedIsOccupied(hash, named, m, jobs, k);
      FlagsAfterAt(m, jobs, flags, |jobs|, false, k);
      BackupsAreWritten(m, jobs, |jobs|, k);
    }
  }

  /** In a genuine store each key has one hash. */
  lemma ExpectedOnce(hash: Hashing, named: Named, m: Objects, p: (Key, string), q: (Key, string))
    requires Genuine(hash, named, m) && p in named && q in named && !SameExpected(named, p.0, q.0)
    ensures p.1 != q.1
  {
  }

  /** The first `d` uploads complete, the next fails at once, and undoing gets to the bad
      backup. */
  lemma BadBackupIsUsed(hash: Hashing, named: Named, m: Objects, jobs: seq<Job>, flags: seq<Flags>, d: nat, i: nat)
    requires |jobs| == |flags| && NoBackupIsTarget(jobs) && AllNamed(named, jobs) && Genuine(hash, named, m)
    requires AllSpared(named, jobs, flags) && d <= i < |jobs| && !Writes(jobs, d, jobs[i].backup)
    requires GetsTo(m, jobs, flags, d, i) && !GoodBackup(hash, named, m, jobs[i], flags[i])
    ensures !StaysGenuine(hash, named, m, jobs, flags)
  {
    var stopped, after := UploadedTo(m, jobs, d), FlagsAfter(m, jobs, flags, d, false);
    forall k | i <= k < |jobs|
      ensures after[k] == flags[k] && if flags[k].backedUp then jobs[k].backup in stopped else !flags[k].updated
    {
      FlagsAfterAt(m, jobs, flags, d, false, k);
      UndoableAt(hash, named, m, jobs, flags, d, i, k);
    }
    LastUndone(stopped, jobs, after, |jobs|, i);
    var now := RolledBackDownTo(stopped, jobs, after, |jobs|, i).value;
    assert LeftBy(m, jobs, flags, d, false, i, now);
    assert Leftover(m, jobs, flags, now);
    UploadedToFrame(m, jobs, d, jobs[i].backup);
    var p :| p in named && p.0 == jobs[i].target && hash(m[jobs[i].backup]) != p.1;
    assert now[p.0] == m[jobs[i].backup];
    assert !Genuine(hash, named, now);
  }

  lemma UndoableAt(hash: Hashing, named: Named, m: Objects, jobs: seq<Job>, flags: seq<Flags>, d: nat, i: nat, k: nat)
    requires |jobs| == |flags| && AllNamed(named, jobs) && Genuine(hash, named, m)
    requires AllSpared(named, jobs, flags) && d <= i <= k < |jobs|
    requires GetsTo(m, jobs, flags, d, i) && !GoodBackup(hash, named, m, jobs[i], flags[i])
    ensures if flags[k].backedUp then jobs[k].backup in UploadedTo(m, jobs, d) else !flags[k].updated
  {
    UploadedToGrows(m, jobs, d);
    if flags[k].backedUp && jobs[k].backup !in m {
      var l :| 0 <= l < d && jobs[l].backup == jobs[k].backup;
      NamedIsOccupied(hash, named, m, jobs, l);
      BackupsAreWritten(m, jobs, d, l);
    } else if flags[k].updated {
      assert Spared(named, jobs[k], flags[k]) && exists p :: p in named && p.0 == jobs[k].target;
    }
  }

  // ----- both conditions together are enough

  /** How many backups have been written when the batch stops. */
  function Written(done: nat, copied: bool): nat {
    if copied then done + 1 else done
  }

  /** A key that this batch has not written is as it was. */
  lemma StoppedFrame(m: Objects, jobs: seq<Job>, done: nat, copied: bool, b: Key)
    requires done <= |jobs| && (copied ==> done < |jobs|) && !Writes(jobs, Written(done, copied), b)
    requires forall i :: 0 <= i < |jobs| ==> jobs[i].target != b
    ensures var s := Interrupted(m, jobs, done, copied); (b in s <==> b in m) && (b in m ==> s[b] == m[b])
  {
    UploadedToFrame(m, jobs, done, b);
  }

  /** A backup that this batch has written holds what is expected at the target of some
      upload that has it. */
  lemma WrittenIsGood(hash: Hashing, named: Named, m: Objects, jobs: seq<Job>, n: nat, b: Key) returns (l: nat)
    requires n <= |jobs| && AllHonest(hash, named, jobs) && NoBackupIsTarget(jobs) && AllNamed(named, jobs)
    requires Genuine(hash, named, m) && Writes(jobs, n, b)
    ensures l < n && jobs[l].backup == b && b in UploadedTo(m, jobs, n)
    ensures forall p <- named :: p.0 == jobs[l].target ==> hash(UploadedTo(m, jobs, n)[b]) == p.1
  {
    var i: nat :| i < n && jobs[i].backup == b;
    l := LastWith(jobs, n, i);
    CopyIsGood(hash, named, m, jobs, l);
    BackupSurvives(m, jobs, l, n);
  }

  /** What the backup copy of upload `l` takes. */
  lemma CopyIsGood(hash: Hashing, named: Named, m: Objects, jobs: seq<Job>, l: nat)
    requires l < |jobs| && AllHonest(hash, named, jobs) && AllNamed(named, jobs) && Genuine(hash, named, m)
    ensures var now := UploadedTo(m, jobs, l);
            jobs[l].target in now && forall p <- named :: p.0 == jobs[l].target ==> hash(now[jobs[l].target]) == p.1
  {
    NamedIsOccupied(hash, named, m, jobs, l);
    forall p | p in named && p.0 == jobs[l].target ensures hash(UploadedTo(m, jobs, l)[jobs[l].target]) == p.1 {
      TargetOrOld(hash, named, m, jobs, l, p);
    }
  }

  lemma StoppedWrittenIsGood(hash: Hashing, named: Named, m: Objects, jobs: seq<Job>, done: nat, copied: bool,
                             b: Key) returns (l: nat)
    requires done <= |jobs| && (copied ==> done < |jobs|)
    requires AllHonest(hash, named, jobs) && NoBackupIsTarget(jobs) && AllNamed(named, jobs)
    requires Genuine(hash, named, m) && Writes(jobs, Written(done, copied), b)
    ensures var s := Interrupted(m, jobs, done, copied);
            && l < |jobs| && jobs[l].backup == b && b in s
            && forall p <- named :: p.0 == jobs[l].target ==> hash(s[b]) == p.1
  {
    if copied && jobs[done].backup == b {
      l := done;
      CopyIsGood(hash, named, m, jobs, l);
    } else {
      assert Writes(jobs, done, b);
      l := WrittenIsGood(hash, named, m, jobs, done, b);
    }
  }

  /** The rollback found the backups that it used. */
  lemma {:induction false} UndoneHadBackup(s: Objects, jobs: seq<Job>, flags: seq<Flags>, n: nat, left: nat, k: nat)
    requires left <= k < n <= |jobs| == |flags| && NoBackupIsTarget(jobs) && flags[k].backedUp
    requires RolledBackDownTo(s, jobs, flags, n, left).Some?
    ensures jobs[k].backup in s
    decreases n
  {
    if k < n - 1 {
      var next := RolledBack(s, jobs[n - 1], flags[n - 1]).value;
      UndoneHadBackup(next, jobs, flags, n - 1, left, k);
      RolledBackTouchesTarget(s, jobs[n - 1], flags[n - 1], jobs[k].backup);
    }
  }

  /** A rollback depends only on what the items it undoes remember. */
  lemma {:induction false} SameEnd(s: Objects, jobs: seq<Job>, f: seq<Flags>, g: seq<Flags>, n: nat, left: nat)
    requires left <= n <= |jobs| == |f| == |g| && forall k :: left <= k < n ==> f[k] == g[k]
    ensures RolledBackDownTo(s, jobs, f, n, left) == RolledBackDownTo(s, jobs, g, n, left)
    decreases n
  {
    if left < n && RolledBack(s, jobs[n - 1], f[n - 1]).Some? {
      SameEnd(RolledBack(s, jobs[n - 1], f[n - 1]).value, jobs, f, g, n - 1, left);
    }
  }

  /** What item `i` goes back to when the rollback has got to it. */
  lemma UsedBackupIsGood(hash: Hashing, named: Named, m: Objects, jobs: seq<Job>, flags: seq<Flags>,
                         done: nat, copied: bool, left: nat, now: Objects, i: nat)
    requires |jobs| == |flags| && AllHonest(hash, named, jobs) && AllNamed(named, jobs) && Unshared(named, jobs)
    requires Genuine(hash, named, m) && OldBackupsGood(hash, named, m, jobs, flags)
    requires LeftBy(m, jobs, flags, done, copied, left, now) && left <= i < |jobs|
    ensures GoodBackup(hash, named, Interrupted(m, jobs, done, copied), jobs[i],
            FlagsAfter(m, jobs, flags, done, copied)[i])
  {
    var d, b := Written(done, copied), jobs[i].backup;
    if Writes(jobs, d, b) {
      var l := StoppedWrittenIsGood(hash, named, m, jobs, done, copied, b);
      assert SameExpected(named, jobs[l].target, jobs[i].target);
    } else {
      assert d <= i;
      FlagsAfterAt(m, jobs, flags, done, copied, i);
      StoppedFrame(m, jobs, done, copied, b);
      RollbackGotTo(m, jobs, flags, done, copied, left, now, i);
    }
  }

  lemma RollbackGotTo(m: Objects, jobs: seq<Job>, flags: seq<Flags>, done: nat, copied: bool, left: nat,
                      now: Objects, i: nat)
    requires |jobs| == |flags| && NoBackupIsTarget(jobs) && LeftBy(m, jobs, flags, done, copied, left, now) &&
             left <= i < |jobs|
    ensures GetsTo(m, jobs, flags, Written(done, copied), i)
  {
    var s, after := Interrupted(m, jobs, done, copied), FlagsAfter(m, jobs, flags, done, copied);
    forall k | i < k < |jobs| && flags[k].backedUp
      ensures jobs[k].backup in m || Writes(jobs, Written(done, copied), jobs[k].backup)
    {
      FlagsAfterAt(m, jobs, flags, done, copied, k);
      UndoneHadBackup(s, jobs, after, |jobs|, left, k);
      if !Writes(jobs, Written(done, copied), jobs[k].backup) {
        StoppedFrame(m, jobs, done, copied, jobs[k].backup);
      }
    }
  }

  lemma StoppedIsGenuine(hash: Hashing, named: Named, m: Objects, jobs: seq<Job>, done: nat, copied: bool)
    requires done <= |jobs| && (copied ==> done < |jobs|) && AllHonest(hash, named, jobs) && Genuine(hash, named, m)
    ensures Genuine(hash, named, Interrupted(m, jobs, done, copied))
  {
    forall p | p in named
      ensures p.0 in UploadedTo(m, jobs, done) && hash(UploadedTo(m, jobs, done)[p.0]) == p.1
    {
      TargetOrOld(hash, named, m, jobs, done, p);
    }
    if copied {
      assert Honest(hash, named, jobs[done]);
    }
  }

  lemma UsedIsSpared(hash: Hashing, named: Named, m: Objects, jobs: seq<Job>, flags: seq<Flags>, done: nat,
                     copied: bool, i: nat)
    requires |jobs| == |flags| && done <= |jobs| && (copied ==> done < |jobs|) && i < |jobs|
    requires AllNamed(named, jobs) && Genuine(hash, named, m) && AllSpared(named, jobs, flags)
    ensures Spared(named, jobs[i], FlagsAfter(m, jobs, flags, done, copied)[i])
  {
    FlagsAfterAt(m, jobs, flags, done, copied, i);
    NamedIsOccupied(hash, named, m, jobs, i);
    assert Spared(named, jobs[i], flags[i]);
  }

  lemma GoodBackupsSuffice(hash: Hashing, named: Named, m: Objects, jobs: seq<Job>, flags: seq<Flags>, now: Objects)
    requires |jobs| == |flags| && AllHonest(hash, named, jobs) && AllNamed(named, jobs) && Unshared(named, jobs)
    requires Genuine(hash, named, m) && AllSpared(named, jobs, flags) && OldBackupsGood(hash, named, m, jobs, flags)
    requires Leftover(m, jobs, flags, now)
    ensures Genuine(hash, named, now)
  {
    var done: nat, copied: bool, left: nat :| LeftBy(m, jobs, flags, done, copied, left, now);
    var s, after := Interrupted(m, jobs, done, copied), FlagsAfter(m, jobs, flags, done, copied);
    var used := seq(|jobs|, k requires 0 <= k < |jobs| => if k < left then FRESH else after[k]);
    StoppedIsGenuine(hash, named, m, jobs, done, copied);
    forall i | 0 <= i < |jobs| ensures GoodBackup(hash, named, s, jobs[i], used[i]) && Spared(named, jobs[i], used[i]) {
      if left <= i {
        UsedBackupIsGood(hash, named, m, jobs, flags, done, copied, left, now, i);
        UsedIsSpared(hash, named, m, jobs, flags, done, copied, i);
      }
    }
    SameEnd(s, jobs, after, used, |jobs|, left);
    RollbackKeepsSound(hash, named, s, jobs, used, |jobs|, left);
  }

  // ----- uploaders that have been rolled back

  /** They share a backup key. Two of them, at targets that are named with different hashes,
      leave the wrong object when a second try fails. */
  lemma UsedUploadersLoseContent(hash: Hashing, first: Key, second: Key, backup: Key, a: Blob, b: Blob)
    requires hash(a) != hash(b) && first != second && backup != first && backup != second
    ensures var named: Named, m := {(first, hash(a)), (second, hash(b))}, map[first := a, second := b];
            var jobs := [Job(first, backup, a), Job(second, backup, b)];
            var flags := [Flags(true, false), Flags(true, false)];
            && Genuine(hash, named, m) && AllHonest(hash, named, jobs) && !Unshared(named, jobs)
            && exists now :: Leftover(m, jobs, flags, now) && !Genuine(hash, named, now)
  {
    var named: Named, m := {(first, hash(a)), (second, hash(b))}, map[first := a, second := b];
    var jobs, flags := [Job(first, backup, a), Job(second, backup, b)], [Flags(true, false), Flags(true, false)];
    assert jobs[0].backup == jobs[1].backup;
    assert (first, hash(a)) in named && (second, hash(b)) in named && (second, hash(a)) !in named;
    StaysGenuineIff(hash, named, m, jobs, flags);
  }

  /** One is enough when an object of an earlier try stands at the backup key: a try that
      fails at its first store operation puts that object at the target. */
  lemma StaleBackupLosesContent(hash: Hashing, target: Key, backup: Key, a: Blob, stale: Blob)
    requires hash(a) != hash(stale) && backup != target
    ensures var named: Named, m := {(target, hash(a))}, map[target := a, backup := stale];
            var jobs, flags := [Job(target, backup, a)], [Flags(true, false)];
            && Genuine(hash, named, m) && AllHonest(hash, named, jobs) && Unshared(named, jobs)
            && exists now :: Leftover(m, jobs, flags, now) && !Genuine(hash, named, now)
  {
    var named: Named, m := {(target, hash(a))}, map[target := a, backup := stale];
    var jobs, flags := [Job(target, backup, a)], [Flags(true, false)];
    assert (target, hash(a)) in named;
    assert GetsTo(m, jobs, flags, 0, 0) && !GoodBackup(hash, named, m, jobs[0], flags[0]);
    StaysGenuineIff(hash, named, m, jobs, flags);
  }
}
