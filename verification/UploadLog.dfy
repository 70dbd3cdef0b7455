/** What a batch of uploads and its rollback do to the objects in cloud storage, as
    functions on the store's contents. The classes of Uploader and BaseConfig are
    proved against these functions. */
module UploadLog {
  import opened Basics

  type Blob = string

  datatype Key = Key(bucket: string, path: string)

  type Objects = map<Key, Blob>

  /** An upload: where it goes, where the object it replaces is kept, and its bytes. */
  datatype Job = Job(target: Key, backup: Key, source: Blob)

  /** What an uploader remembers having done. */
  datatype Flags = Flags(backedUp: bool, updated: bool)

  const FRESH := Flags(false, false)

  /** An upload that completes; an object already there is first copied to the backup key. */
  function Uploaded(m: Objects, j: Job): Objects {
    BackedUp(m, j)[j.target := j.source]
  }

  function BackedUp(m: Objects, j: Job): Objects {
    if j.target in m then m[j.backup := m[j.target]] else m
  }

  /** The store after the first `n` uploads of the batch. */
  function UploadedTo(m: Objects, jobs: seq<Job>, n: nat): Objects
    requires n <= |jobs|
  {
    if n == 0 then m else Uploaded(UploadedTo(m, jobs, n - 1), jobs[n - 1])
  }

  /** Rolling one upload back. None stands for the NotFound error of a missing object. */
  function RolledBack(m: Objects, j: Job, f: Flags): Option<Objects> {
    if f.backedUp then
      if j.backup in m then Some(m[j.target := m[j.backup]]) else None
    else if f.updated then
      if j.target in m then Some(m - {j.target}) else None
    else Some(m)
  }

  /** Rolling the first `n` uploads of a batch back, the last of them first. */
  function RolledBackFrom(m: Objects, jobs: seq<Job>, flags: seq<Flags>, n: nat): Option<Objects>
    requires n <= |jobs| == |flags|
    decreases n
  {
    if n == 0 then Some(m)
    else
      match RolledBack(m, jobs[n - 1], flags[n - 1])
      case None => None
      case Some(m') => RolledBackFrom(m', jobs, flags, n - 1)
  }

  /** The same when the rollback stops with the first `left` uploads still to be undone. */
  function RolledBackDownTo(m: Objects, jobs: seq<Job>, flags: seq<Flags>, n: nat, left: nat): Option<Objects>
    requires left <= n <= |jobs| == |flags|
    decreases n
  {
    if n == left then Some(m)
    else
      match RolledBack(m, jobs[n - 1], flags[n - 1])
      case None => None
      case Some(m') => RolledBackDownTo(m', jobs, flags, n - 1, left)
  }

  /** No rollback from the store `m` gets past the last of the first `left` uploads. */
  ghost predicate Stuck(m: Objects, jobs: seq<Job>, flags: seq<Flags>, left: nat)
    requires left <= |jobs| == |flags|
  {
    left > 0 && RolledBackDownTo(m, jobs, flags, |jobs|, left - 1).None?
  }

  lemma {:induction false} RolledBackFurther(m: Objects, jobs: seq<Job>, flags: seq<Flags>, n: nat, left: nat)
    requires 0 < left <= n <= |jobs| == |flags| && RolledBackDownTo(m, jobs, flags, n, left).Some?
    ensures RolledBackDownTo(m, jobs, flags, n, left - 1)
         == RolledBack(RolledBackDownTo(m, jobs, flags, n, left).value, jobs[left - 1], flags[left - 1])
    decreases n
  {
    if left < n {
      RolledBackFurther(RolledBack(m, jobs[n - 1], flags[n - 1]).value, jobs, flags, n - 1, left);
    }
  }

  lemma {:induction false} RolledBackFully(m: Objects, jobs: seq<Job>, flags: seq<Flags>, n: nat)
    requires n <= |jobs| == |flags|
    ensures RolledBackDownTo(m, jobs, flags, n, 0) == RolledBackFrom(m, jobs, flags, n)
    ensures forall left {:trigger RolledBackDownTo(m, jobs, flags, n, left)} :: 0 <= left <= n ==>
              RolledBackFrom(m, jobs, flags, n).Some? ==> RolledBackDownTo(m, jobs, flags, n, left).Some?
    decreases n
  {
    if n > 0 && RolledBack(m, jobs[n - 1], flags[n - 1]).Some? {
      RolledBackFully(RolledBack(m, jobs[n - 1], flags[n - 1]).value, jobs, flags, n - 1);
    }
  }

  /** Upload `i` of the batch finds an object at its target. */
  predicate Occupied(m: Objects, jobs: seq<Job>, i: nat)
    requires i < |jobs|
  {
    jobs[i].target in UploadedTo(m, jobs, i)
  }

  /** None of the first `n` uploads finds an object at its target. */
  ghost predicate NoneOccupied(m: Objects, jobs: seq<Job>, n: nat)
    requires n <= |jobs|
  {
    forall i {:trigger Occupied(m, jobs, i)} :: 0 <= i < n ==> !Occupied(m, jobs, i)
  }

  /** What uploaders that remembered `flags` remember after the first `n` have completed. */
  function FlagsTo(m: Objects, jobs: seq<Job>, flags: seq<Flags>, n: nat): (r: seq<Flags>)
    requires n <= |jobs| == |flags|
    ensures |r| == |jobs|
  {
    if n == 0 then flags
    else FlagsTo(m, jobs, flags, n - 1)[n - 1 := Flags(flags[n - 1].backedUp || Occupied(m, jobs, n - 1), true)]
  }

  /** The same when, with `copied`, the next one has got no further than its backup copy. */
  function FlagsAfter(m: Objects, jobs: seq<Job>, flags: seq<Flags>, done: nat, copied: bool): (r: seq<Flags>)
    requires done <= |jobs| == |flags| && (copied ==> done < |jobs|)
    ensures |r| == |jobs|
  {
    var r := FlagsTo(m, jobs, flags, done);
    if copied then r[done := Flags(true, flags[done].updated)] else r
  }

  lemma {:induction false} FlagsToAt(m: Objects, jobs: seq<Job>, flags: seq<Flags>, n: nat, i: nat)
    requires n <= |jobs| == |flags| && i < |jobs|
    ensures FlagsTo(m, jobs, flags, n)[i] ==
            if i < n then Flags(flags[i].backedUp || Occupied(m, jobs, i), true) else flags[i]
  {
    if n > 0 {
      FlagsToAt(m, jobs, flags, n - 1, i);
    }
  }

  lemma FlagsAfterAt(m: Objects, jobs: seq<Job>, flags: seq<Flags>, done: nat, copied: bool, i: nat)
    requires done <= |jobs| == |flags| && (copied ==> done < |jobs|) && i < |jobs|
    ensures FlagsAfter(m, jobs, flags, done, copied)[i] ==
            if i < done then Flags(flags[i].backedUp || Occupied(m, jobs, i), true)
            else Flags(flags[i].backedUp || (i == done && copied), flags[i].updated)
  {
    FlagsToAt(m, jobs, flags, done, i);
  }

  lemma FlagsAfterStep(m: Objects, jobs: seq<Job>, flags: seq<Flags>, done: nat, f: Flags)
    requires done < |jobs| == |flags|
    ensures var now := FlagsAfter(m, jobs, flags, done, false);
            && now[done] == flags[done]
            && (f == Flags(flags[done].backedUp || Occupied(m, jobs, done), true) ==>
                  now[done := f] == FlagsAfter(m, jobs, flags, done + 1, false))
            && (f == flags[done] ==> now[done := f] == FlagsAfter(m, jobs, flags, done, false))
            && (f == Flags(true, flags[done].updated) ==> now[done := f] == FlagsAfter(m, jobs, flags, done, true))
  {
    FlagsToAt(m, jobs, flags, done, done);
  }

  function AllFresh(n: nat): seq<Flags> {
    seq(n, _ => FRESH)
  }

  /** The same for fresh uploaders. */
  function FlagsOf(m: Objects, jobs: seq<Job>, done: nat, copied: bool): seq<Flags>
    requires done <= |jobs| && (copied ==> done < |jobs|)
  {
    FlagsAfter(m, jobs, AllFresh(|jobs|), done, copied)
  }

  /** The store at that moment. */
  function Interrupted(m: Objects, jobs: seq<Job>, done: nat, copied: bool): Objects
    requires done <= |jobs| && (copied ==> done < |jobs|)
  {
    var now := UploadedTo(m, jobs, done);
    if copied then BackedUp(now, jobs[done]) else now
  }

  /** What a batch that fails can leave: it stops somewhere, and so may its rollback. */
  ghost predicate Leftover(m: Objects, jobs: seq<Job>, flags: seq<Flags>, now: Objects)
    requires |jobs| == |flags|
  {
    exists done: nat, copied: bool, left: nat :: LeftBy(m, jobs, flags, done, copied, left, now)
  }

  ghost predicate LeftBy(m: Objects, jobs: seq<Job>, flags: seq<Flags>, done: nat, copied: bool, left: nat,
                         now: Objects)
    requires |jobs| == |flags|
  {
    && done <= |jobs| && left <= |jobs| && (copied ==> done < |jobs| && Occupied(m, jobs, done))
    && var after := FlagsAfter(m, jobs, flags, done, copied);
       RolledBackDownTo(Interrupted(m, jobs, done, copied), jobs, after, |jobs|, left) == Some(now)
  }

  /** Two stores have the same objects under every key outside `except`. */
  ghost predicate Agree(a: Objects, b: Objects, except: set<Key>) {
    forall k :: k !in except ==> (k in a <==> k in b) && (k in a ==> a[k] == b[k])
  }

  /** The backup keys that were written. */
  ghost function WrittenBackups(jobs: seq<Job>, flags: seq<Flags>): set<Key>
    requires |jobs| == |flags|
  {
    set i | 0 <= i < |jobs| && flags[i].backedUp :: jobs[i].backup
  }

  /** The backup key of item `i` is no upload's target and no other written backup key. */
  ghost predicate BackupApart(jobs: seq<Job>, flags: seq<Flags>, i: nat)
    requires |jobs| == |flags| && i < |jobs|
  {
    && (forall j :: 0 <= j < |jobs| ==> jobs[j].target != jobs[i].backup)
    && (forall j :: 0 <= j < |jobs| && j != i && flags[j].backedUp ==> jobs[j].backup != jobs[i].backup)
  }

  ghost predicate BackupsApart(jobs: seq<Job>, flags: seq<Flags>)
    requires |jobs| == |flags|
  {
    forall i :: 0 <= i < |jobs| && flags[i].backedUp ==> BackupApart(jobs, flags, i)
  }

  /** The backup that item `i` took still holds the object it saved. */
  ghost predicate BackupIntact(m: Objects, jobs: seq<Job>, done: nat, i: nat, now: Objects)
    requires i < |jobs| && done <= |jobs|
  {
    var before := UploadedTo(m, jobs, if i < done then i else done);
    jobs[i].target in before && jobs[i].backup in now && now[jobs[i].backup] == before[jobs[i].target]
  }

  /** The first `k` items can be undone from the store `now`: outside the backups it
      agrees with the store after those of them that completed, and every backup
      that was taken is intact. */
  ghost predicate Undoable(m: Objects, jobs: seq<Job>, flags: seq<Flags>, done: nat, k: nat, now: Objects,
                           kept: set<Key>)
    requires |jobs| == |flags| && k <= |jobs| && done <= |jobs|
  {
    && Agree(now, UploadedTo(m, jobs, if k < done then k else done), kept)
    && forall i {:trigger flags[i]} :: 0 <= i < k && flags[i].backedUp ==> BackupIntact(m, jobs, done, i, now)
  }

  /** `kept` holds every backup key that was written and no upload's target. */
  ghost predicate Separates(jobs: seq<Job>, flags: seq<Flags>, kept: set<Key>)
    requires |jobs| == |flags|
  {
    && (forall i :: 0 <= i < |jobs| ==> jobs[i].target !in kept)
    && (forall i {:trigger flags[i]} :: 0 <= i < |jobs| && flags[i].backedUp ==> jobs[i].backup in kept)
  }

  /** What the uploaders of a stopped batch remember, item by item. */
  ghost predicate Recorded(m: Objects, jobs: seq<Job>, done: nat, flags: seq<Flags>)
    requires |jobs| == |flags| && done <= |jobs|
  {
    forall i {:trigger flags[i]} :: 0 <= i < |jobs| ==>
      && (flags[i].updated <==> i < done)
      && (i < done ==> (flags[i].backedUp <==> Occupied(m, jobs, i)))
  }

  /** Rolling back an upload that completed goes back to the store before it. */
  lemma UndoCompleted(now: Objects, before: Objects, j: Job, kept: set<Key>)
    requires Agree(now, Uploaded(before, j), kept) && j.target !in kept
    requires j.target in before ==> j.backup in kept && j.backup in now && now[j.backup] == before[j.target]
    ensures var r := RolledBack(now, j, Flags(j.target in before, true));
            r.Some? && Agree(r.value, before, kept)
  {
  }

  /** Rolling back an upload that stopped after its backup copy changes nothing that counts. */
  lemma UndoCopied(now: Objects, before: Objects, j: Job, kept: set<Key>)
    requires Agree(now, before, kept)
    requires j.target in before && j.backup in now && now[j.backup] == before[j.target]
    ensures var r := RolledBack(now, j, Flags(true, false));
            r.Some? && Agree(r.value, before, kept)
  {
  }

  lemma RolledBackTouchesTarget(now: Objects, j: Job, f: Flags, k: Key)
    requires RolledBack(now, j, f).Some? && k != j.target
    ensures var r := RolledBack(now, j, f).value;
            (k in r <==> k in now) && (k in now ==> r[k] == now[k])
  {
  }

  /** One step of the rollback goes back one step of the batch. */
  lemma UndoStep(m: Objects, jobs: seq<Job>, done: nat, flags: seq<Flags>, k: nat, now: Objects, kept: set<Key>)
    requires done <= |jobs| == |flags| && 0 < k <= |jobs|
    requires Recorded(m, jobs, done, flags) && Separates(jobs, flags, kept)
    requires Undoable(m, jobs, flags, done, k, now, kept)
    ensures var r := RolledBack(now, jobs[k - 1], flags[k - 1]);
            r.Some? && Undoable(m, jobs, flags, done, k - 1, r.value, kept)
  {
    var i, j := k - 1, jobs[k - 1];
    var before := UploadedTo(m, jobs, if i < done then i else done);
    if i < done {
      assert flags[i] == Flags(j.target in before, true);
      UndoCompleted(now, before, j, kept);
    } else if flags[i].backedUp {
      UndoCopied(now, before, j, kept);
    }
    var r := RolledBack(now, j, flags[i]).value;
    forall l | 0 <= l < i && flags[l].backedUp ensures BackupIntact(m, jobs, done, l, r) {
      RolledBackTouchesTarget(now, j, flags[i], jobs[l].backup);
    }
  }

  lemma {:induction false} UndoAll(m: Objects, jobs: seq<Job>, done: nat, flags: seq<Flags>, k: nat, now: Objects,
                                   kept: set<Key>)
    requires done <= |jobs| == |flags| && k <= |jobs|
    requires Recorded(m, jobs, done, flags) && Separates(jobs, flags, kept)
    requires Undoable(m, jobs, flags, done, k, now, kept)
    ensures var r := RolledBackFrom(now, jobs, flags, k);
            r.Some? && Agree(r.value, m, kept)
  {
    if k > 0 {
      UndoStep(m, jobs, done, flags, k, now, kept);
      UndoAll(m, jobs, done, flags, k - 1, RolledBack(now, jobs[k - 1], flags[k - 1]).value, kept);
    }
  }

  /** A backup that was taken still holds what it saved after later uploads. */
  lemma {:induction false} BackupSurvives(m: Objects, jobs: seq<Job>, i: nat, upTo: nat)
    requires i < upTo <= |jobs| && jobs[i].target in UploadedTo(m, jobs, i)
    requires forall j :: 0 <= j < upTo ==> jobs[j].target != jobs[i].backup
    requires forall j :: i < j < upTo && jobs[j].target in UploadedTo(m, jobs, j) ==> jobs[j].backup != jobs[i].backup
    ensures var now := UploadedTo(m, jobs, upTo);
            jobs[i].backup in now && now[jobs[i].backup] == UploadedTo(m, jobs, i)[jobs[i].target]
    decreases upTo
  {
    if i < upTo - 1 {
      BackupSurvives(m, jobs, i, upTo - 1);
    }
  }

  /** The items from `done` on: only the first can have a backup. */
  ghost predicate StoppedAt(flags: seq<Flags>, done: nat, copied: bool) {
    forall i {:trigger flags[i]} :: done <= i < |flags| ==> (flags[i].backedUp <==> i == done && copied)
  }

  lemma FlagsOfRecord(m: Objects, jobs: seq<Job>, done: nat, copied: bool)
    requires done <= |jobs| && (copied ==> done < |jobs|)
    ensures Recorded(m, jobs, done, FlagsOf(m, jobs, done, copied)) &&
            StoppedAt(FlagsOf(m, jobs, done, copied), done, copied)
  {
    forall i | 0 <= i < |jobs|
      ensures FlagsOf(m, jobs, done, copied)[i] ==
              if i < done then Flags(Occupied(m, jobs, i), true) else Flags(i == done && copied, false)
    {
      FlagsAfterAt(m, jobs, AllFresh(|jobs|), done, copied, i);
    }
  }

  lemma BackupIsIntact(m: Objects, jobs: seq<Job>, done: nat, copied: bool, flags: seq<Flags>, i: nat)
    requires done <= |jobs| == |flags| && (copied ==> done < |jobs| && Occupied(m, jobs, done))
    requires Recorded(m, jobs, done, flags) && StoppedAt(flags, done, copied) && i < |jobs| && flags[i].backedUp
    requires BackupApart(jobs, flags, i)
    ensures BackupIntact(m, jobs, done, i, Interrupted(m, jobs, done, copied))
  {
    if i < done {
      BackupSurvives(m, jobs, i, done);
      assert copied ==> flags[done].backedUp;
    }
  }

  /** Wherever a batch of fresh uploads stops, rolling it back succeeds and gives every
      key outside the written backups the object, or the absence, it had before. */
  lemma RollbackRestores(m: Objects, jobs: seq<Job>, done: nat, copied: bool)
    requires done <= |jobs| && (copied ==> done < |jobs| && Occupied(m, jobs, done))
    requires BackupsApart(jobs, FlagsOf(m, jobs, done, copied))
    ensures var flags := FlagsOf(m, jobs, done, copied);
            var r := RolledBackFrom(Interrupted(m, jobs, done, copied), jobs, flags, |jobs|);
            r.Some? && Agree(r.value, m, WrittenBackups(jobs, flags))
  {
    FlagsOfRecord(m, jobs, done, copied);
    RestoresFrom(m, jobs, done, copied, FlagsOf(m, jobs, done, copied));
  }

  lemma RestoresFrom(m: Objects, jobs: seq<Job>, done: nat, copied: bool, flags: seq<Flags>)
    requires done <= |jobs| == |flags| && (copied ==> done < |jobs| && Occupied(m, jobs, done))
    requires Recorded(m, jobs, done, flags) && StoppedAt(flags, done, copied) && BackupsApart(jobs, flags)
    ensures var r := RolledBackFrom(Interrupted(m, jobs, done, copied), jobs, flags, |jobs|);
            r.Some? && Agree(r.value, m, WrittenBackups(jobs, flags))
  {
    var now := Interrupted(m, jobs, done, copied);
    forall i | 0 <= i < |jobs| && flags[i].backedUp ensures BackupIntact(m, jobs, done, i, now) {
      assert BackupApart(jobs, flags, i);
      BackupIsIntact(m, jobs, done, copied, flags, i);
    }
    var kept := WrittenBackups(jobs, flags);
    assert Separates(jobs, flags, kept);
    UndoAll(m, jobs, done, flags, |jobs|, now, kept);
  }

  lemma {:induction false} UploadedToGrows(m: Objects, jobs: seq<Job>, n: nat)
    requires n <= |jobs|
    ensures m.Keys <= UploadedTo(m, jobs, n).Keys
    ensures forall i :: 0 <= i < n ==> jobs[i].target in UploadedTo(m, jobs, n)
  {
    if n > 0 {
      UploadedToGrows(m, jobs, n - 1);
    }
  }

  /** The uploads of a batch leave each other's targets alone. */
  ghost predicate TargetsApart(jobs: seq<Job>) {
    forall i, j :: 0 <= i < |jobs| && 0 <= j < |jobs| ==>
      jobs[i].backup != jobs[j].target && (i != j ==> jobs[i].target != jobs[j].target)
  }

  /** After a batch every target holds its source. */
  lemma {:induction false} UploadedToStores(m: Objects, jobs: seq<Job>, n: nat, i: nat)
    requires TargetsApart(jobs) && i < n <= |jobs|
    ensures jobs[i].target in UploadedTo(m, jobs, n) && UploadedTo(m, jobs, n)[jobs[i].target] == jobs[i].source
  {
    if i < n - 1 {
      UploadedToStores(m, jobs, n - 1, i);
    }
  }

  /** Keys that are neither a target nor a backup of the batch keep their objects. */
  lemma {:induction false} UploadedToFrame(m: Objects, jobs: seq<Job>, n: nat, k: Key)
    requires n <= |jobs|
    requires forall i :: 0 <= i < n ==> jobs[i].target != k && jobs[i].backup != k
    ensures k in UploadedTo(m, jobs, n) <==> k in m
    ensures k in m ==> UploadedTo(m, jobs, n)[k] == m[k]
  {
    if n > 0 {
      UploadedToFrame(m, jobs, n - 1, k);
    }
  }

  ghost function AllBackups(jobs: seq<Job>): set<Key> {
    set j | j in jobs :: j.backup
  }

  /** Backup keys that differ from each other and from every target. */
  ghost predicate DistinctBackups(jobs: seq<Job>) {
    forall i, j :: 0 <= i < |jobs| && 0 <= j < |jobs| ==>
      jobs[i].backup != jobs[j].target && (i != j ==> jobs[i].backup != jobs[j].backup)
  }

  /** The condition a caller can check beforehand: either uploads may not replace
      objects, so that no backup is ever taken, or the backup keys are distinct. */
  lemma StoppedBatchRestores(m: Objects, jobs: seq<Job>, done: nat, copied: bool, force: bool)
    requires done <= |jobs| && (copied ==> force && done < |jobs| && Occupied(m, jobs, done))
    requires !force ==> NoneOccupied(m, jobs, done)
    requires force ==> DistinctBackups(jobs)
    ensures var r := RolledBackFrom(Interrupted(m, jobs, done, copied), jobs, FlagsOf(m, jobs, done, copied), |jobs|);
            r.Some? && Agree(r.value, m, if force then AllBackups(jobs) else {})
  {
    var flags := FlagsOf(m, jobs, done, copied);
    FlagsOfRecord(m, jobs, done, copied);
    forall i | 0 <= i < |jobs| && flags[i].backedUp ensures force && BackupApart(jobs, flags, i) {
      assert force;
    }
    RollbackRestores(m, jobs, done, copied);
    if force {
      assert WrittenBackups(jobs, flags) <= AllBackups(jobs);
    } else {
      assert WrittenBackups(jobs, flags) == {};
    }
  }

  // ----- exactly when a forced batch can be undone

  /** Backup keys as fresh uploaders choose them, one for each target. */
  ghost predicate KeyedByTarget(jobs: seq<Job>) {
    forall i, j :: 0 <= i < |jobs| && 0 <= j < |jobs| ==>
      jobs[i].backup != jobs[j].target && (jobs[i].backup == jobs[j].backup <==> jobs[i].target == jobs[j].target)
  }

  ghost predicate DistinctTargets(jobs: seq<Job>) {
    forall i, j :: 0 <= i < j < |jobs| ==> jobs[i].target != jobs[j].target
  }

  /** Rolling back the batch that stopped at `done` restores the store `m`. */
  ghost predicate Restores(m: Objects, jobs: seq<Job>, done: nat, copied: bool)
    requires done <= |jobs| && (copied ==> done < |jobs|)
  {
    var r := RolledBackFrom(Interrupted(m, jobs, done, copied), jobs, FlagsOf(m, jobs, done, copied), |jobs|);
    r.Some? && Agree(r.value, m, AllBackups(jobs))
  }

  /** The same for every store and every place to stop. */
  ghost predicate AlwaysRestores(jobs: seq<Job>) {
    forall m: Objects, done: nat, copied: bool ::
      done <= |jobs| && (copied ==> done < |jobs| && Occupied(m, jobs, done)) ==> Restores(m, jobs, done, copied)
  }

  /** A forced batch whose backups are keyed by target is always undone if and only if no
      two uploads have the same target. */
  lemma AlwaysRestoresIff(jobs: seq<Job>)
    requires KeyedByTarget(jobs)
    ensures AlwaysRestores(jobs) <==> DistinctTargets(jobs)
  {
    if DistinctTargets(jobs) {
      forall m: Objects, done: nat, copied: bool | done <= |jobs| &&
          (copied ==> done < |jobs| && Occupied(m, jobs, done))
        ensures Restores(m, jobs, done, copied)
      {
        StoppedBatchRestores(m, jobs, done, copied, true);
      }
    } else {
      var i, j := LastRepeated(jobs);
      RepeatedTargetLoses(map[jobs[i].target := jobs[i].source + "x"], jobs, i, j);
    }
  }

  /** Two uploads to one target with no other upload to it between them. */
  lemma LastRepeated(jobs: seq<Job>) returns (i: nat, j: nat)
    requires !DistinctTargets(jobs)
    ensures i < j < |jobs| && jobs[i].target == jobs[j].target
    ensures forall k :: i < k < j ==> jobs[k].target != jobs[i].target
  {
    i, j :| 0 <= i < j < |jobs| && jobs[i].target == jobs[j].target;
    var k := i + 1;
    while k < j
      invariant i < k <= j && jobs[i].target == jobs[j].target
      invariant forall l :: i < l < k ==> jobs[l].target != jobs[i].target
    {
      if jobs[k].target == jobs[i].target {
        i := k;
      }
      k := k + 1;
    }
  }

  /** The target holds what its last upload put there. */
  lemma {:induction false} LastWriter(m: Objects, jobs: seq<Job>, i: nat, n: nat)
    requires KeyedByTarget(jobs) && i < n <= |jobs| && forall k :: i < k < n ==> jobs[k].target != jobs[i].target
    ensures jobs[i].target in UploadedTo(m, jobs, n) && UploadedTo(m, jobs, n)[jobs[i].target] == jobs[i].source
  {
    if i < n - 1 {
      LastWriter(m, jobs, i, n - 1);
    }
  }

  /** Rolling back gives a target what its backup holds, however often it does so. */
  lemma {:induction false} RestoredFromBackup(now: Objects, jobs: seq<Job>, flags: seq<Flags>, n: nat, t: Key,
      b: Key, l: nat)
    requires n <= |jobs| == |flags| && b in now && l <= n
    requires forall k :: 0 <= k < n ==> jobs[k].target != b
    requires forall k :: 0 <= k < n && jobs[k].target == t ==>
               jobs[k].backup == b && (flags[k].updated ==> flags[k].backedUp)
    requires if l < n then jobs[l].target == t && flags[l].backedUp else t in now && now[t] == now[b]
    ensures var r := RolledBackFrom(now, jobs, flags, n);
            r.Some? ==> t in r.value && r.value[t] == now[b]
    decreases n
  {
    if n > 0 && RolledBack(now, jobs[n - 1], flags[n - 1]).Some? {
      var next := RolledBack(now, jobs[n - 1], flags[n - 1]).value;
      RestoredFromBackup(next, jobs, flags, n - 1, t, b, if l < n - 1 then l else n - 1);
    }
  }

  /** Two uploads to one existing object share a backup key, and rolling both back leaves
      the first upload where the original was. */
  lemma RepeatedTargetLoses(m: Objects, jobs: seq<Job>, i: nat, j: nat)
    requires KeyedByTarget(jobs) && i < j < |jobs| && jobs[i].target == jobs[j].target
    requires forall k :: i < k < j ==> jobs[k].target != jobs[i].target
    requires jobs[i].target in m && m[jobs[i].target] != jobs[i].source
    ensures !Restores(m, jobs, j + 1, false)
  {
    var t := jobs[i].target;
    var now, flags := UploadedTo(m, jobs, j + 1), FlagsOf(m, jobs, j + 1, false);
    LastWriter(m, jobs, i, j);
    assert now[jobs[j].backup] == jobs[i].source;
    FlagsOfRecord(m, jobs, j + 1, false);
    forall k | 0 <= k < |jobs| && jobs[k].target == t
      ensures jobs[k].backup == jobs[j].backup && (k <= j ==> flags[k].backedUp) &&
              (flags[k].updated ==> flags[k].backedUp)
    {
      if k <= j {
        UploadedToGrows(m, jobs, k);
      }
    }
    RestoredFromBackup(now, jobs, flags, |jobs|, t, jobs[j].backup, j);
    assert t !in AllBackups(jobs);
  }

  /** The loss can be silent: here the rollback of the whole batch succeeds. */
  lemma SharedBackupLosesOriginal(target: Key, backup: Key, original: Blob, first: Blob, second: Blob)
    requires target != backup && original != first
    ensures var m := map[target := original];
            var jobs := [Job(target, backup, first), Job(target, backup, second)];
            var r := RolledBackFrom(Interrupted(m, jobs, 2, false), jobs, FlagsOf(m, jobs, 2, false), 2);
            r.Some? && target in r.value && r.value[target] == first != m[target]
  {
    var m := map[target := original];
    var jobs := [Job(target, backup, first), Job(target, backup, second)];
    assert UploadedTo(m, jobs, 1) == map[target := first, backup := original];
    assert UploadedTo(m, jobs, 2) == map[target := second, backup := first];
    var flags := FlagsOf(m, jobs, 2, false);
    FlagsOfRecord(m, jobs, 2, false);
    assert flags[0] == flags[1] == Flags(true, true);
    var r1 := RolledBack(UploadedTo(m, jobs, 2), jobs[1], flags[1]).value;
    var r0 := RolledBack(r1, jobs[0], flags[0]).value;
    assert RolledBackFrom(r0, jobs, flags, 0) == Some(r0);
    assert RolledBackFrom(r1, jobs, flags, 1) == Some(r0);
  }

  /** A rollback that stops only at a missing object does not stop at all. */
  lemma UndoneInFull(m: Objects, jobs: seq<Job>, done: nat, copied: bool, force: bool, left: nat, now: Objects)
    requires done <= |jobs| && (copied ==> force && done < |jobs| && Occupied(m, jobs, done))
    requires !force ==> NoneOccupied(m, jobs, done)
    requires force ==> DistinctBackups(jobs)
    requires LeftBy(m, jobs, AllFresh(|jobs|), done, copied, left, now)
    requires left > 0 ==> Stuck(Interrupted(m, jobs, done, copied), jobs, FlagsOf(m, jobs, done, copied), left)
    ensures Agree(now, m, if force then AllBackups(jobs) else {})
  {
    StoppedBatchRestores(m, jobs, done, copied, force);
    RolledBackFully(Interrupted(m, jobs, done, copied), jobs, FlagsOf(m, jobs, done, copied), |jobs|);
  }

  lemma InterruptedGrows(m: Objects, jobs: seq<Job>, done: nat, copied: bool)
    requires done <= |jobs| && (copied ==> done < |jobs|)
    ensures m.Keys <= Interrupted(m, jobs, done, copied).Keys
  {
    UploadedToGrows(m, jobs, done);
  }
}
