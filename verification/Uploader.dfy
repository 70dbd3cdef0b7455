/** uploader.py of dependency_manager, over a cloud storage whose operations may fail. */
module Uploader {
  import opened Basics
  import opened UploadLog

  const BACKUP_PATH_EXTENSION := "old"

  /** The bucket operations of py_utils/cloud_storage.py. A failed operation has no
      effect. With `faulty` an operation may fail for any reason, without it only
      for the reason the store itself gives: the object is not there. */
  class CloudStorage {
    var objects: Objects

    /** None is an error other than NotFound. */
    method Exists(key: Key, faulty: bool) returns (found: Option<bool>)
      ensures found.Some? ==> found.value == (key in objects)
      ensures !faulty ==> found.Some?
    {
      if faulty {
        if * {
          return None;
        }
      }
      return Some(key in objects);
    }

    method Copy(from: Key, to: Key, faulty: bool) returns (ok: bool)
      modifies this
      ensures ok ==> from in old(objects) && objects == old(objects)[to := old(objects)[from]]
      ensures !ok ==> objects == old(objects)
      ensures !faulty ==> (ok <==> from in old(objects))
    {
      ok := from in objects;
      if faulty {
        if * {
          ok := false;
        }
      }
      if ok {
        objects := objects[to := objects[from]];
      }
    }

    method Insert(key: Key, blob: Blob, faulty: bool) returns (ok: bool)
      modifies this
      ensures objects == if ok then old(objects)[key := blob] else old(objects)
      ensures !faulty ==> ok
    {
      ok := true;
      if faulty {
        if * {
          ok := false;
        }
      }
      if ok {
        objects := objects[key := blob];
      }
    }

    method Delete(key: Key, faulty: bool) returns (ok: bool)
      modifies this
      ensures ok ==> key in old(objects) && objects == old(objects) - {key}
      ensures !ok ==> objects == old(objects)
      ensures !faulty ==> (ok <==> key in old(objects))
    {
      ok := key in objects;
      if faulty {
        if * {
          ok := false;
        }
      }
      if ok {
        objects := objects - {key};
      }
    }
  }

  /** How Upload ends: with the upload, with CloudStorageUploadConflictError, or with
      a CloudStorageError. */
  datatype UploadOutcome = Uploads | Conflict | StoreError

  /** How Rollback ends; `changed` is its return value. */
  datatype RollbackOutcome = Undid(changed: bool) | RollbackFailed

  class CloudStorageUploader {
    const bucket: string
    const remotePath: string
    const source: Blob                 // the bytes at local_path
    var backupPath: Option<string>     // None once a rollback has used it
    var updated: bool
    var backedUp: bool

    /** The target key of the upload. */
    function Target(): Key {
      Key(bucket, remotePath)
    }

    /** Formatting a missing backup path yields the text None. */
    function Backup(): Key
      reads this
    {
      Key(bucket, if backupPath.Some? then backupPath.value else "None")
    }

    function View(): Job
      reads this
    {
      Job(Target(), Backup(), source)
    }

    function Memory(): Flags
      reads this
    {
      Flags(backedUp, updated)
    }

    /** It has no backup, and would take one beside its target. */
    predicate Plain()
      reads this
    {
      !backedUp && backupPath == Some(remotePath + "." + BACKUP_PATH_EXTENSION)
    }

    constructor (bucket: string, remotePath: string, source: Blob)
      requires bucket != "" && remotePath != ""
      ensures Plain()
      ensures this.bucket == bucket && this.remotePath == remotePath && this.source == source
      ensures Memory() == FRESH && Backup() == Key(bucket, remotePath + ".old")
    {
      this.bucket := bucket;
      this.remotePath := remotePath;
      this.source := source;
      backupPath := Some(remotePath + "." + BACKUP_PATH_EXTENSION);
      updated, backedUp := false, false;
    }

    method Upload(cs: CloudStorage, force: bool, faulty: bool) returns (r: UploadOutcome)
      modifies this`updated, this`backedUp, cs
      ensures r.Uploads? ==> cs.objects == Uploaded(old(cs.objects), View())
      ensures r.Uploads? ==> updated && backedUp == (old(backedUp) || Target() in old(cs.objects))
      ensures r.Uploads? && Target() in old(cs.objects) ==> force
      ensures r.Conflict? ==>
                !force && Target() in old(cs.objects) && cs.objects == old(cs.objects) && Memory() == old(Memory())
      ensures r.StoreError? ==> updated == old(updated)
      ensures r.StoreError? ==>
              || (cs.objects == old(cs.objects) && backedUp == old(backedUp))
              || (force && Target() in old(cs.objects) && backedUp && cs.objects == BackedUp(old(cs.objects), View()))
      ensures !faulty ==> (r.Conflict? <==> !force && Target() in old(cs.objects)) && !r.StoreError?
    {
      var found := cs.Exists(Target(), faulty);
      if found.None? {
        return StoreError;
      }
      if found.value {
        if !force {
          return Conflict;
        }
        var copied := cs.Copy(Target(), Backup(), faulty);
        if !copied {
          return StoreError;
        }
        backedUp := true;
      }
      var inserted := cs.Insert(Target(), source, faulty);
      if !inserted {
        return StoreError;
      }
      updated := true;
      return Uploads;
    }

    /** A successful rollback is the function RolledBack; an unfaulty one fails only
        where that function meets a missing object. */
    method Rollback(cs: CloudStorage, faulty: bool) returns (r: RollbackOutcome)
      modifies this`updated, this`backupPath, cs
      ensures r.Undid? ==> RolledBack(old(cs.objects), old(View()), old(Memory())) == Some(cs.objects)
      ensures r.Undid? ==> r.changed == old(backedUp || updated) && !updated
      ensures r.Undid? ==> backupPath == if old(backedUp) then None else old(backupPath)
      ensures r.Undid? && old(backedUp) ==> backedUp && Backup() == Key(bucket, "None")
      ensures r.RollbackFailed? ==>
                cs.objects == old(cs.objects) && Memory() == old(Memory()) && backupPath == old(backupPath)
      ensures !faulty ==> (r.RollbackFailed? <==> RolledBack(old(cs.objects), old(View()), old(Memory())).None?)
    {
      var changed := false;
      if backedUp {
        var copied := cs.Copy(Backup(), Target(), faulty);
        if !copied {
          return RollbackFailed;
        }
        changed := true;
        backupPath := None;
      } else if updated {
        var deleted := cs.Delete(Target(), faulty);
        if !deleted {
          return RollbackFailed;
        }
        changed := true;
      }
      updated := false;
      return Undid(changed);
    }
  }
}
