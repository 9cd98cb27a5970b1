/**
 * Publishing a file-backed volume (pkg/driver/node_helper.go,
 * publishFileBackedVolume and reconcilePublishedFilesystem) and what kubelet's
 * retries make of it.
 */
module FilePublish {
  import opened Wrappers
  import opened Unmounting
  import opened SizeChain

  /** What SafeIsMountPoint answers for the target; Broken is any error but not-exist and EIO. */
  datatype Check = IsMounted | NotMounted | NotExist | IoError | Broken

  /** Every outside answer a publish depends on, in the order it asks. */
  datatype Faults = Faults(
    lock: bool, check: Check, detaches: bool, mkdir: bool, share: bool, attaches: bool,
    superblock: Option<(int, int)>, mounts: bool, reconcile: Reconciliation, rollback: Unmount)

  datatype Reply = Ok | Failed

  /** What a publish leaves for the next one to find. */
  datatype State = State(target: Option<bool>, file: int, fs: int)

  class Node {
    const volume: BackingFile
    /** Some(readOnly) while something is mounted at the target. */
    var target: Option<bool>

    constructor (volume: BackingFile)
      ensures this.volume == volume && target.None?
    {
      this.volume, target := volume, None;
    }

    /** A mounted target has its loop device. */
    ghost predicate Valid()
      reads this, volume
    {
      volume.Valid() && (target.Some? ==> volume.loop.Some?)
    }

    ghost function Now(): State
      reads this, volume
    {
      State(target, volume.file, volume.fs)
    }

    /** Grow the filesystem at the target; only a fresh mount is undone on failure. */
    method ReconcilePublished(freshMount: bool, f: Faults) returns (reply: Reply)
      requires Valid() && target.Some? && volume.Possible(f.reconcile)
      modifies this, volume`loop, volume`fs
      ensures Valid() && volume.loop.Some? && volume.fs == if f.reconcile.Grows? ||
        f.reconcile.GrowFails? then f.reconcile.fs else old(volume.fs)
      ensures f.reconcile.Grows? ==> reply.Ok? && volume.Reconciled() && target == old(target)
      ensures !f.reconcile.Grows? && !freshMount ==> reply.Ok? && target == old(target)
      ensures !f.reconcile.Grows? && freshMount ==>
        reply.Failed? && target == if f.rollback.Gone() then None else old(target)
    {
      var ok := volume.ReconcileFilesystem(f.reconcile);
      if ok || !freshMount {
        return Ok;
      }
      if f.rollback.Gone() {
        target := None;
      }
      return Failed;
    }

    /** Mount the file at the target; read-only publishes check its filesystem first. */
    method MountFresh(fsType: FsType, readOnly: bool, f: Faults) returns (ok: bool)
      requires Valid() && volume.SuperblockFits(f.superblock) && target.None?
      modifies this, volume`loop, volume`writableMounts
      ensures Valid() && (ok ==> volume.loop.Some?)
      ensures target == if ok then Some(readOnly) else None
      ensures readOnly ==> volume.writableMounts == old(volume.writableMounts)
      ensures ok && readOnly && !fsType.Block? ==> volume.Reconciled()
      ensures ok <==>
        && f.share && f.mounts && (fsType.Block? ==> f.attaches)
        && (!fsType.Block? && readOnly ==> f.superblock.Some? && volume.Reconciled())
    {
      if !f.share {
        return false;
      }
      if fsType.Block? {
        if !f.attaches || !f.mounts {
          return false;
        }
      } else {
        if readOnly {
          var grow := volume.NeedsGrowth(f.superblock);
          if grow.None? || grow.value {
            return false;
          }
        }
        if !f.mounts {
          return false;
        }
        if !readOnly {
          volume.writableMounts := volume.writableMounts + 1;
        }
      }
      // The mount attaches a loop device of the file's current size.
      target, volume.loop := Some(readOnly), Some(volume.file);
      return true;
    }

    /** Look at the target: create it if it is missing, and clear away a filesystem that has shut itself down. */
    method PrepareTarget(f: Faults) returns (ready: bool)
      requires Valid()
      modifies this`target
      ensures ready <==>
        f.lock && !f.check.Broken? && (f.check.NotExist? ==> f.mkdir) && (f.check.IoError? ==> f.detaches && f.mkdir)
      ensures Valid() && target == if Clears(f) then None else old(target)
    {
      if !f.lock || f.check.Broken? {
        return false;
      }
      if f.check.NotExist? && !f.mkdir {
        return false;
      }
      if f.check.IoError? {
        if !f.detaches {
          return false;
        }
        target := None;
        if !f.mkdir {
          return false;
        }
      }
      return true;
    }

    /**
     * publishFileBackedVolume. `fsType` is Block for a raw block volume. A
     * read-only publish grows nothing and mounts nothing writable.
     */
    method Publish(fsType: FsType, readOnly: bool, f: Faults) returns (reply: Reply)
      requires Valid() && Truthful(f, Now()) && volume.SuperblockFits(f.superblock)
      modifies this, volume`loop, volume`fs, volume`writableMounts
      ensures Valid()
      ensures Attempt(fsType, readOnly, f, old(Now()), Now(), reply)
      ensures readOnly ==> volume.writableMounts == old(volume.writableMounts)
    {
      var ready := PrepareTarget(f);
      if !ready {
        return Failed;
      }
      var mounted := f.check.IsMounted?;
      if !mounted {
        var ok := MountFresh(fsType, readOnly, f);
        if !ok {
          return Failed;
        }
      }
      if !fsType.Block? && !readOnly {
        reply := ReconcilePublished(!mounted, f);
        return;
      }
      return Ok;
    }
  }

  /** The publish gets as far as a fresh mount of its own. */
  predicate MountsFresh(f: Faults) {
    && f.lock && f.share && f.mounts
    && (f.check.NotMounted? || (f.check.NotExist? && f.mkdir) || (f.check.IoError? && f.detaches && f.mkdir))
  }

  /** The answers fit the state they are given in. */
  predicate Truthful(f: Faults, s: State) {
    && (f.check.IsMounted? ==> s.target.Some?)
    && (f.check.NotMounted? || f.check.NotExist? ==> s.target.None?)
    && (f.reconcile.GrowFails? || f.reconcile.Grows? ==> s.fs <= f.reconcile.fs <= s.file)
    && (f.reconcile.Grows? ==> s.file - f.reconcile.fs <= SLACK)
  }

  /** It finds its target mounted by an earlier publish. */
  predicate FindsMounted(f: Faults) {
    f.lock && f.check.IsMounted?
  }

  /** It mounts the target, cannot grow the filesystem, and the rollback does not take the mount away. */
  predicate LeavesMount(f: Faults) {
    MountsFresh(f) && !f.reconcile.Grows? && !f.rollback.Gone()
  }

  /** It takes away what it finds at the target, because of an I/O error. */
  predicate Clears(f: Faults) {
    f.lock && f.check.IoError? && f.detaches
  }

  /** The size of the filesystem once a writable publish has tried to grow it. */
  function GrownTo(f: Faults, s: State): int {
    if (MountsFresh(f) || FindsMounted(f)) &&
      (f.reconcile.Grows? || f.reconcile.GrowFails?) then f.reconcile.fs else s.fs
  }

  /** One publish, seen from outside: from s and these answers it gives this reply and leaves s'. */
  ghost predicate Attempt(fsType: FsType, readOnly: bool, f: Faults, s: State, s': State, reply: Reply) {
    && Truthful(f, s)
    // A publish never touches the file, and only a writable one the filesystem.
    && s'.file == s.file
    && s'.fs == (if fsType.Block? || readOnly then s.fs else GrownTo(f, s))
    // What is found mounted is a success, whatever its size; a fresh mount is one
    // exactly if read-only of a grown filesystem or writable of one just grown.
    && (reply.Ok? <==>
          || FindsMounted(f)
          || (&& MountsFresh(f)
              && (if fsType.Block? then f.attaches
                  else if readOnly then f.superblock.Some? && s.file - s.fs <= SLACK
                  else f.reconcile.Grows?)))
    // What is mounted at the target afterwards.
    && s'.target == (if FindsMounted(f) then s.target
                     else if reply.Ok? then Some(readOnly)
                     else if !fsType.Block? && !readOnly && LeavesMount(f) then Some(false)
                     else if Clears(f) then None
                     else s.target)
  }

  datatype Try = Try(f: Faults, before: State, after: State, reply: Reply)

  ghost predicate Made(fsType: FsType, readOnly: bool, t: Try) {
    Attempt(fsType, readOnly, t.f, t.before, t.after, t.reply)
  }

  /** The second comes after the first, which failed. */
  predicate Retried(first: Try, second: Try) {
    first.reply.Failed? && second.before.target == first.after.target
  }

  /**
   * Successive publishes of one target, all failed but perhaps the last, from
   * an unmounted target. Between two of them the backing file and its
   * filesystem may change, but nobody else touches the target.
   */
  ghost predicate Retries(fsType: FsType, readOnly: bool, tries: seq<Try>) {
    && (tries != [] ==> tries[0].before.target.None?)
    && (forall i :: 0 <= i < |tries| ==> Made(fsType, readOnly, tries[i]))
    && (forall i, j :: 0 <= i && i + 1 == j < |tries| ==> Retried(tries[i], tries[j]))
  }

  /** A mount that a failed growth left is still there after these tries. */
  predicate Leftover(tries: seq<Try>) {
    tries != [] &&
    var f := tries[|tries| - 1].f;
    LeavesMount(f) || (!Clears(f) && Leftover(tries[..|tries| - 1]))
  }

  lemma RetriesPrefix(fsType: FsType, readOnly: bool, tries: seq<Try>, n: nat)
    requires Retries(fsType, readOnly, tries) && n <= |tries|
    ensures Retries(fsType, readOnly, tries[..n])
  {
    assert forall i, j :: 0 <= i && i + 1 == j < n ==> Retried(tries[i], tries[j]);
  }

  /** The target before the last of the retries: what an earlier one left, and nothing else. */
  lemma {:induction false} TargetOfRetries(fsType: FsType, readOnly: bool, tries: seq<Try>)
    requires !fsType.Block? && Retries(fsType, readOnly, tries) && tries != []
    ensures tries[|tries| - 1].before.target ==
              if !readOnly && Leftover(tries[..|tries| - 1]) then Some(false) else None
  {
    var n := |tries| - 1;
    if n > 0 {
      var rest := tries[..n];
      RetriesPrefix(fsType, readOnly, tries, n);
      TargetOfRetries(fsType, readOnly, rest);
      var t := tries[n - 1];
      assert Made(fsType, readOnly, t);
      assert rest[n - 1] == t && Retried(t, tries[n]);
    }
  }

  /**
   * The first success of any number of publishes from an unmounted target.
   * Read-only, it is always a read-only mount of a grown filesystem. Writable,
   * it is a mount of a filesystem grown to its file, unless exactly this
   * happened: an earlier publish left its mount after a failed growth, this one
   * found it mounted, and its own growth did not end within the slack either.
   */
  lemma FirstSuccess(fsType: FsType, readOnly: bool, tries: seq<Try>)
    requires !fsType.Block? && Retries(fsType, readOnly, tries) && tries != []
    ensures var last := tries[|tries| - 1];
            var undersized := last.after.file - last.after.fs > SLACK;
            && (last.reply.Ok? ==> last.after.target == Some(readOnly))
            && (last.reply.Ok? && undersized <==>
                  && !readOnly && Leftover(tries[..|tries| - 1]) && FindsMounted(last.f)
                  && !last.f.reconcile.Grows? && last.before.file - GrownTo(last.f, last.before) > SLACK)
  {
    var last := tries[|tries| - 1];
    TargetOfRetries(fsType, readOnly, tries);
    assert Made(fsType, readOnly, last);
  }

  /**
   * So with rollbacks that detach, the first success is of a grown filesystem,
   * and until then the target stays unmounted.
   */
  lemma {:induction false} FirstSuccessIsReconciled(fsType: FsType, readOnly: bool, tries: seq<Try>)
    requires !fsType.Block? && Retries(fsType, readOnly, tries) && tries != []
    requires forall i :: 0 <= i < |tries| ==> readOnly || !LeavesMount(tries[i].f)
    ensures var last := tries[|tries| - 1];
            && last.before.target.None?
            && (last.reply.Failed? ==> last.after.target.None?)
            && (last.reply.Ok? ==> last.after.target == Some(readOnly) && last.after.file - last.after.fs <= SLACK)
  {
    var n := |tries| - 1;
    TargetOfRetries(fsType, readOnly, tries);
    FirstSuccess(fsType, readOnly, tries);
    if !readOnly { NoLeftover(tries[..n]); }
    assert Made(fsType, readOnly, tries[n]);
  }

  lemma {:induction false} NoLeftover(tries: seq<Try>)
    requires forall i :: 0 <= i < |tries| ==> !LeavesMount(tries[i].f)
    ensures !Leftover(tries)
  {
    if tries != [] { NoLeftover(tries[..|tries| - 1]); }
  }

  /**
   * The exception happens: when the growth fails and the rollback leaves the
   * mount in place, here because its mount check goes unanswered, the next
   * publish reports success on the undersized filesystem.
   */
  method UndersizedAfterFailedRollback() returns (first: Reply, second: Reply, left: State)
    ensures first.Failed? && second.Ok? && left.target == Some(false) && left.file - left.fs > SLACK
  {
    var volume := new BackingFile(4 * SLACK, SLACK);
    var node := new Node(volume);
    var f := Faults(true, NotMounted, true, true, true, true, None, true, LoopUnknown, Unchecked);
    first := node.Publish(Ext4, false, f);
    second := node.Publish(Ext4, false, f.(check := IsMounted));
    left := State(node.target, volume.file, volume.fs);
  }
}
