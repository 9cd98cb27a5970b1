/**
 * The size chain of a file-backed volume: backing file, loop device,
 * filesystem (pkg/common/host_utils.go, pkg/driver/node_helper.go and
 * pkg/driver/controller.go).
 *
 * qemu-img, losetup, resize2fs, xfs_growfs and mount are outside calls. What
 * they answer is an argument; their contracts are grow only, `losetup -c`
 * copies the file size, and a finished growth leaves at most the slack.
 */
module SizeChain {
  import opened Wrappers
  import opened Unmounting

  const MAX_INT64: int := 0x7fff_ffff_ffff_ffff
  const TWO_64: int := 0x1_0000_0000_0000_0000

  /** filesystemGrowthSlack, 16 MiB. */
  const SLACK: int := 16 * 1024 * 1024

  datatype FsType = Block | Ext4 | Xfs | OtherFs

  /**
   * How the reconcile steps end: losetup -a, losetup -c, then the growth tool,
   * which may leave a partly grown filesystem.
   */
  datatype Reconciliation = LoopUnknown | RefreshFails | GrowFails(fs: int) | Grows(fs: int)

  /** Go's int64 arithmetic. */
  function Wrap(x: int): int {
    (x + MAX_INT64 + 1) % TWO_64 - (MAX_INT64 + 1)
  }

  /** The comparison FilesystemNeedsGrowth makes, overflow included. */
  function GrowthTest(file: int, blockCount: int, blockSize: int): bool {
    Wrap(file - Wrap(blockCount * blockSize)) > SLACK
  }

  /** The guard of parseFilesystemSize tells exactly the products that overflow. */
  lemma GuardIsExact(count: int, size: int)
    requires count > 0 && size > 0
    ensures count > MAX_INT64 / size <==> count * size > MAX_INT64
  {
    var q, r := MAX_INT64 / size, MAX_INT64 % size;
    assert q * size + r == MAX_INT64;
    if count > q {
      assert count * size >= (q + 1) * size == q * size + size > MAX_INT64;
    } else {
      assert count * size <= q * size;
    }
  }

  /** Where that guard would pass, the unguarded test compares the true sizes. */
  lemma GrowthTestWithoutOverflow(file: int, count: int, size: int)
    requires 0 <= file <= MAX_INT64 && count > 0 && size > 0 && count <= MAX_INT64 / size
    ensures GrowthTest(file, count, size) <==> file - count * size > SLACK
  {
    GuardIsExact(count, size);
    assert 0 < count * size by {
      assert count * size >= 1 * size;
    }
    assert Wrap(count * size) == count * size;
    assert Wrap(file - count * size) == file - count * size;
  }

  lemma WrapDiff(file: int, bytes: int)
    requires 0 <= file <= MAX_INT64
    ensures Wrap(file - Wrap(bytes)) > SLACK <==> SLACK < (file - bytes) % TWO_64 <= MAX_INT64
  {
    var q := (bytes + MAX_INT64 + 1) / TWO_64;
    assert Wrap(bytes) == bytes - q * TWO_64;
    var d := file - bytes;
    var r := d % TWO_64;
    assert d == d / TWO_64 * TWO_64 + r;
    assert file - Wrap(bytes) == (d / TWO_64 + q) * TWO_64 + r;
    WrapRemainder(d / TWO_64 + q, r);
  }

  lemma WrapRemainder(k: int, r: int)
    requires 0 <= r < TWO_64
    ensures Wrap(k * TWO_64 + r) == if r <= MAX_INT64 then r else r - TWO_64
  {
    var x := k * TWO_64 + r + MAX_INT64 + 1;
    if r <= MAX_INT64 {
      Remainder(x, k, r + MAX_INT64 + 1);
    } else {
      Remainder(x, k + 1, r - MAX_INT64 - 1);
    }
  }

  lemma Remainder(x: int, k: int, r: int)
    requires 0 <= r < TWO_64 && x == k * TWO_64 + r
    ensures x % TWO_64 == r
  {
  }

  /**
   * The unguarded test is right exactly where the guard would pass or the
   * wrapped difference of the sizes does not look like missing growth.
   */
  lemma GrowthTestIsRight(file: int, count: int, size: int)
    requires 0 <= file <= MAX_INT64 && count > 0 && size > 0
    ensures (GrowthTest(file, count, size) <==> file - count * size > SLACK)
       <==> count <= MAX_INT64 / size || !(SLACK < (file - count * size) % TWO_64 <= MAX_INT64)
  {
    GuardIsExact(count, size);
    WrapDiff(file, count * size);
    if count <= MAX_INT64 / size {
      GrowthTestWithoutOverflow(file, count, size);
    }
  }

  /** Where it would not, the test can call for growth that no filesystem could need. */
  lemma GrowthTestOverflows()
    ensures GrowthTest(2 * SLACK, 0x4000_0000_0000_0000, 4) && 2 * SLACK - 0x4000_0000_0000_0000 * 4 <= SLACK
  {
    assert Wrap(0x4000_0000_0000_0000 * 4) == 0;
  }

  /** The filesystem is within the slack of the file grown to the requested size. */
  predicate FitsRequest(requested: int, file: int, fs: int) {
    (if file < requested then requested else file) - fs <= SLACK
  }

  class BackingFile {
    var file: int
    var loop: Option<int>
    var fs: int
    /** Writable mounts of the filesystem ever made. */
    var writableMounts: nat
    /** The private growth mount is still there. */
    var privateMount: bool

    constructor (file: int, fs: int)
      requires 0 <= fs <= file <= MAX_INT64
      ensures Valid() && this.file == file && this.fs == fs && loop.None? && writableMounts == 0 && !privateMount
    {
      this.file, this.fs, this.loop, this.writableMounts, this.privateMount := file, fs, None, 0, false;
    }

    ghost predicate Valid()
      reads this
    {
      0 <= fs <= file <= MAX_INT64 && (loop.Some? ==> fs <= loop.value <= file)
    }

    /** The filesystem counts as grown to its file. */
    predicate Reconciled()
      reads this
    {
      file - fs <= SLACK
    }

    /** Nothing shrank. */
    twostate predicate Grew()
      reads this
    {
      old(file) <= file && old(fs) <= fs && (old(loop).Some? && loop.Some? ==> old(loop).value <= loop.value)
    }

    /** What the tools can truthfully report, given the file they work on. */
    ghost predicate Possible(r: Reconciliation)
      reads this
    {
      match r
      case LoopUnknown => true
      case RefreshFails => loop.Some?
      case GrowFails(x) => loop.Some? && fs <= x <= file
      case Grows(x) => loop.Some? && fs <= x <= file && file - x <= SLACK
    }

    /** qemu-img resize, which refuses to shrink. */
    method ExpandRawFileSize(size: int, works: bool) returns (ok: bool)
      requires Valid() && size <= MAX_INT64
      modifies this`file
      ensures Valid() && Grew()
      ensures ok <==> works && size >= old(file)
      ensures file == if ok then size else old(file)
    {
      if !works || size < file {
        return false;
      }
      file := size;
      return true;
    }

    /** losetup -c: the loop device takes the file's current size. */
    method RefreshLoop(works: bool) returns (ok: bool)
      requires Valid() && loop.Some?
      modifies this`loop
      ensures Valid() && Grew() && loop.Some?
      ensures ok <==> works
      ensures loop == if ok then Some(file) else old(loop)
    {
      if works {
        loop := Some(file);
      }
      return works;
    }

    /** The file first, the loop device second, or the device keeps the old size. */
    method ExpandDeviceFileSize(size: int, loopFound: bool, resizes: bool, refreshes: bool) returns (ok: bool)
      requires Valid() && size <= MAX_INT64 && (loopFound ==> loop.Some?)
      modifies this`file, this`loop
      ensures Valid() && Grew()
      ensures ok ==> file == size && loop == Some(file)
      ensures ok <==> loopFound && resizes && size >= old(file) && refreshes
    {
      if !loopFound {
        return false;
      }
      ok := ExpandRawFileSize(size, resizes);
      if !ok {
        return false;
      }
      ok := RefreshLoop(refreshes);
    }

    /** Grow the filesystem to whatever the file holds now; the file itself is not touched. */
    method ReconcileFilesystem(r: Reconciliation) returns (ok: bool)
      requires Valid() && Possible(r)
      modifies this`loop, this`fs
      ensures Valid() && Grew()
      ensures loop.Some? <==> old(loop).Some?
      ensures ok <==> r.Grows?
      ensures ok ==> Reconciled() && loop == Some(file)
      ensures fs == if r.Grows? || r.GrowFails? then r.fs else old(fs)
    {
      if r.LoopUnknown? {
        return false;
      }
      var refreshed := RefreshLoop(!r.RefreshFails?);
      if !refreshed {
        return false;
      }
      fs := r.fs;
      return r.Grows?;
    }

    /**
     * FilesystemNeedsGrowth: the superblock says how many blocks of which
     * size; None is a failed stat, a failed tool or unusable output. The
     * answer is right for a superblock that tells the filesystem's size, and
     * for any other it is what the wrapped difference looks like.
     */
    method NeedsGrowth(superblock: Option<(int, int)>) returns (grow: Option<bool>)
      requires Valid() && (superblock.Some? ==> superblock.value.0 > 0 && superblock.value.1 > 0)
      ensures grow.Some? <==> superblock.Some?
      ensures grow.Some? ==>
        (grow.value <==> 16 * 1024 * 1024 < (file - superblock.value.0 * superblock.value.1) % TWO_64 <= MAX_INT64)
      ensures grow.Some? && SuperblockFits(superblock) ==> (grow.value <==> !Reconciled())
    {
      if superblock.None? {
        return None;
      }
      var (count, size) := superblock.value;
      WrapDiff(file, count * size);
      if SuperblockFits(superblock) {
        GuardIsExact(count, size);
        GrowthTestWithoutOverflow(file, count, size);
      }
      return Some(GrowthTest(file, count, size));
    }

    /** The superblock, if it could be read, tells the size of the filesystem. */
    predicate SuperblockFits(superblock: Option<(int, int)>)
      reads this
    {
      superblock.Some? ==>
        superblock.value.0 > 0 && superblock.value.1 > 0 && superblock.value.0 * superblock.value.1 == fs
    }

    /**
     * The writable mount is taken only for a filesystem that needs growth, and
     * it is gone afterwards unless both unmount attempts failed to detach it
     * or a mount check went unanswered.
     */
    method GrowPrivately(superblock: Option<(int, int)>, tempDir: bool, mounts: bool, r: Reconciliation,
        unmount: Unmount, cleanup: Unmount)
      returns (ok: bool)
      requires Valid() && SuperblockFits(superblock) && !privateMount
      requires r.GrowFails? || r.Grows? ==> fs <= r.fs <= file && (r.Grows? ==> file - r.fs <= SLACK)
      modifies this`loop, this`fs, this`writableMounts, this`privateMount
      ensures Valid() && Grew()
      ensures ok ==> Reconciled()
      ensures ok <==> superblock.Some? && (old(Reconciled()) || (tempDir && mounts && r.Grows? && unmount.Ok()))
      ensures old(Reconciled()) ==> writableMounts == old(writableMounts) && fs == old(fs) && loop == old(loop)
      ensures privateMount ==> !(if ok then unmount.Gone() else cleanup.Gone())
      ensures ok && privateMount ==> unmount.Skips()
    {
      var grow := NeedsGrowth(superblock);
      if grow.None? {
        return false;
      }
      if !grow.value {
        return true;
      }
      if !tempDir || !mounts {
        return false;
      }
      // The mount attaches a loop device of the file's current size.
      privateMount, writableMounts, loop := true, writableMounts + 1, Some(file);
      ok := ReconcileFilesystem(r);
      if ok {
        if unmount.Gone() {
          privateMount := false;
        }
        ok := unmount.Ok();
      }
      if !ok && privateMount && cleanup.Gone() {
        privateMount := false;
      }
    }

    /**
     * growRestoredDeviceFile. `metadata` is the size the Anvil reports for the
     * restored file (None when it does not know the file); `answered` says
     * whether the Anvil could be asked.
     */
    method GrowRestored(
      requested: int, fsType: FsType, answered: bool, metadata: Option<int>, acquired: bool, stats: bool, resizes: bool,
      superblock: Option<(int, int)>, tempDir: bool, mounts: bool, r: Reconciliation, unmount: Unmount,
        cleanup: Unmount)
      returns (ok: bool)
      requires Valid() && requested <= MAX_INT64 && SuperblockFits(superblock) && !privateMount
      requires r.GrowFails? || r.Grows? ==>
        var grown := if file < requested then requested else file;
        fs <= r.fs <= grown && (r.Grows? ==> grown - r.fs <= SLACK)
      modifies this
      ensures Valid() && Grew()
      ensures ok && (fsType.Ext4? || fsType.Xfs?) ==> file >= requested && Reconciled()
      ensures ok && (metadata.Some? ==> metadata.value <= old(file)) ==> file >= requested
      ensures file == old(file) || (old(file) < requested && file == requested)
      ensures ok <==>
        && answered
        && var asked := metadata.None? || metadata.value < requested;
           || (!asked && !fsType.Ext4? && !fsType.Xfs?)
           || (&& acquired && stats && (old(file) >= requested || resizes)
               && (fsType.Ext4? || fsType.Xfs? ==>
                     superblock.Some? && (FitsRequest(requested, old(file), old(fs)) ||
                         (tempDir && mounts && r.Grows? && unmount.Ok()))))
    {
      if !answered {
        return false;
      }
      var rawGrowthNeeded := metadata.None? || metadata.value < requested;
      var filesystemGrowthPossible := fsType.Ext4? || fsType.Xfs?;
      if !rawGrowthNeeded && !filesystemGrowthPossible {
        return true;
      }
      if !acquired || !stats {
        return false;
      }
      if file < requested {
        ok := ExpandRawFileSize(requested, resizes);
        if !ok {
          return false;
        }
      }
      ok := true;
      if filesystemGrowthPossible {
        ok := GrowPrivately(superblock, tempDir, mounts, r, unmount, cleanup);
      }
    }
  }
}
