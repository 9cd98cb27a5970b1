/**
 * Publishing a staged NFS volume into a pod (pkg/driver/node_helper.go,
 * bindMountReadOnly and publishShareBackedVolume), step by step against a
 * mount table, with every outside call free to fail.
 */
module SharePublish {
  import opened Unmounting

  /** Paths matter here only as names. */
  type Path = nat

  /** What a path shows: a volume mounted with these flags, or the node's own disk. */
  datatype Content = Volume(id: string, readOnly: bool) | LocalDisk

  /** What isMountPoint answers; Stale stands for EIO and ESTALE, Broken for any other error. */
  datatype Check = IsMounted | NotMounted | NotExist | Stale | Broken

  /** The calls of bindMountReadOnly that may fail. */
  datatype BindFaults = BindFaults(
    tempDir: bool, bindPrivate: bool, remount: bool, bindTarget: bool, unmount: Unmount, rollback: Unmount,
      cleanup: Unmount)

  class MountTable {
    var mounts: map<Path, Content>

    constructor (mounts: map<Path, Content>)
      ensures this.mounts == mounts
    {
      this.mounts := mounts;
    }

    function At(p: Path): Content
      reads this
    {
      if p in mounts then mounts[p] else LocalDisk
    }

    /** A bind shows what the source shows, with the source's flags. */
    method Bind(source: Path, target: Path, works: bool) returns (ok: bool)
      modifies this
      ensures ok <==> works
      ensures mounts == if ok then old(mounts)[target := old(At(source))] else old(mounts)
    {
      if works {
        mounts := mounts[target := At(source)];
      }
      return works;
    }

    method RemountReadOnly(target: Path, works: bool) returns (ok: bool)
      requires target in mounts
      modifies this
      ensures ok <==> works
      ensures mounts == if ok &&
        old(mounts[target]).Volume? then old(mounts)[target := old(mounts[target]).(readOnly := true)] else old(mounts)
    {
      if works && mounts[target].Volume? {
        mounts := mounts[target := mounts[target].(readOnly := true)];
      }
      return works;
    }

    method UnmountPath(target: Path, u: Unmount) returns (ok: bool)
      modifies this
      ensures ok <==> u.Ok()
      ensures mounts == if u.Gone() then old(mounts) - {target} else old(mounts)
    {
      if u.Gone() {
        mounts := mounts - {target};
      }
      return u.Ok();
    }

    /** Bind the helper to the target and unmount the helper; or undo the target. */
    method MoveToTarget(private: Path, target: Path, f: BindFaults) returns (ok: bool)
      requires private in mounts && target !in mounts
      modifies this
      ensures ok <==> f.bindTarget && f.unmount.Ok()
      ensures forall p :: p != target && p != private ==> (p in mounts <==> p in old(mounts)) && At(p) == old(At(p))
      ensures ok ==> At(target) == old(At(private)) && (private in mounts <==> f.unmount.Skips())
      ensures !ok ==> (target in mounts <==> f.bindTarget && !f.rollback.Gone())
    {
      ok := Bind(private, target, f.bindTarget);
      if !ok {
        return false;
      }
      ok := UnmountPath(private, f.unmount);
      if !ok {
        var _ := UnmountPath(target, f.rollback);
      }
    }

    /**
     * bindMountReadOnly. `private` is the fresh directory MkdirTemp makes. A
     * success binds the source's volume read-only and changes nothing else,
     * the source's own flags included; the helper mount is gone exactly unless
     * its unmount skipped the detach on an unanswered mount check. A failure
     * leaves a target bind exactly when the rollback did not detach it.
     */
    method BindMountReadOnly(source: Path, target: Path, private: Path, f: BindFaults) returns (ok: bool)
      requires target !in mounts && private !in mounts
      requires private != source && private != target && source != target
      requires At(source).Volume?
      modifies this
      ensures forall p :: p != target && p != private ==> (p in mounts <==> p in old(mounts)) && At(p) == old(At(p))
      ensures ok <==> f.tempDir && f.bindPrivate && f.remount && f.bindTarget && f.unmount.Ok()
      ensures ok ==> At(target) == Volume(old(At(source)).id, true)
      ensures ok ==> (private in mounts <==> f.unmount.Skips())
      ensures !ok ==> (target in mounts <==>
          f.tempDir && f.bindPrivate && f.remount && f.bindTarget && !f.rollback.Gone())
      ensures !ok && private in mounts ==> !f.cleanup.Gone()
    {
      if !f.tempDir {
        return false;
      }
      ok := Bind(source, private, f.bindPrivate);
      if !ok {
        return false;
      }
      ok := RemountReadOnly(private, f.remount);
      if ok {
        ok := MoveToTarget(private, target, f);
      }
      if !ok {
        // The deferred cleanup of the helper mount.
        var _ := UnmountPath(private, f.cleanup);
      }
    }

    /**
     * publishShareBackedVolume with a staging path. `stages` says whether
     * staging on demand works, in which case the volume is mounted at the
     * staging path; `check` answers for the target, `staged` and `restaged`
     * for the staging path.
     *
     * A fresh publish that succeeds shows the pod the volume at the staging
     * path, never the node's own disk, read-only when asked for. A bind is
     * made only from a staging path that a check has just found mounted. The
     * staging mount changes only by staging on demand, whether or not the
     * publish then fails, and no path but target, staging and helper changes.
     */
    method PublishStaged(
      volume: string, staging: Path, target: Path, private: Path, readOnly: bool, stagingReadOnly: bool,
      check: Check, detaches: bool, mkdir: bool, staged: Check, stages: bool, restaged: Check, binds: bool,
        f: BindFaults)
      returns (ok: bool, bound: bool)
      requires private !in mounts && private != staging && private != target && staging != target
      requires check.IsMounted? ==> target in mounts
      requires check.NotMounted? || check.NotExist? ==> target !in mounts
      requires staged.IsMounted? ==> At(staging).Volume?
      requires staged.NotMounted? || staged.NotExist? ==> staging !in mounts
      requires restaged.IsMounted? ==> stages || At(staging).Volume?
      modifies this
      ensures forall p :: p !in {target, private, staging} ==>
        (p in mounts <==> p in old(mounts)) && At(p) == old(At(p))
      ensures
        var restages :=
          && !check.IsMounted? && !check.Broken? && (check.Stale? ==> detaches) && mkdir && staged.NotMounted? &&
             stages;
        && At(staging) == (if restages then Volume(volume, stagingReadOnly) else old(At(staging)))
        && (staging in mounts <==> restages || staging in old(mounts))
      ensures bound ==> At(staging).Volume?
      ensures check.IsMounted? ==> ok && !bound && mounts == old(mounts)
      ensures check.Broken? ==> !ok && mounts == old(mounts)
      ensures ok <==>
        || check.IsMounted?
        || (&& !check.Broken? && (check.Stale? ==> detaches) && mkdir
            && (staged.IsMounted? || (staged.NotMounted? && stages && restaged.IsMounted?))
            && (if readOnly then f.tempDir && f.bindPrivate && f.remount && f.bindTarget && f.unmount.Ok() else binds))
      ensures ok && !check.IsMounted? ==>
        && bound && At(staging).Volume? && At(target) == Volume(At(staging).id, readOnly || At(staging).readOnly)
        && (old(At(staging)).Volume? && staged.IsMounted? ==> At(staging) == old(At(staging)))
        && (!staged.IsMounted? ==> At(staging) == Volume(volume, stagingReadOnly))
      ensures ok ==> (private in mounts ==> f.unmount.Skips())
      ensures !ok && !readOnly && !check.Broken? && (check.Stale? ==> detaches) ==> target !in mounts
      ensures !ok && readOnly && !check.Broken? && (check.Stale? ==> detaches) ==>
        (target in mounts <==>
          bound && f.tempDir && f.bindPrivate && f.remount && f.bindTarget && !f.rollback.Gone())
      ensures check.Stale? && !detaches ==> !ok && mounts == old(mounts)
      ensures !ok && private in mounts ==> readOnly && bound && !f.cleanup.Gone()
    {
      bound := false;
      if check.IsMounted? {
        return true, false;
      }
      if check.Broken? {
        return false, false;
      }
      if check.Stale? {
        if !detaches {
          return false, false;
        }
        mounts := mounts - {target};
      }
      if !mkdir {
        return false, false;
      }
      if !staged.IsMounted? && !staged.NotMounted? {
        return false, false;
      }
      if staged.NotMounted? {
        if !stages {
          return false, false;
        }
        mounts := mounts[staging := Volume(volume, stagingReadOnly)];
        if !restaged.IsMounted? {
          return false, false;
        }
      }
      bound := true;
      if readOnly {
        ok := BindMountReadOnly(staging, target, private, f);
      } else {
        ok := Bind(staging, target, binds);
      }
    }
  }
}
