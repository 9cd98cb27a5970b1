/**
 * How common.UnmountFilesystem ends (pkg/common/host_utils.go): it checks the
 * mount, detaches it, and removes the directory.
 */
module Unmounting {
  import opened Wrappers

  datatype Unmount =
    | Detached          // all of it worked
    | NothingThere      // the check said not mounted: success
    | Unchecked         // the check had no answer, which counts as not mounted: success
    | FailedDetached    // detached, but the directory could not be removed
    | FailedMounted     // not detached
  {
    predicate Ok() {
      Detached? || Skips()
    }
    /** It reports success without having detached anything. */
    predicate Skips() {
      NothingThere? || Unchecked?
    }
    predicate Gone() {
      Detached? || FailedDetached?
    }
  }

  /**
   * UnmountFilesystem: success means skipped or detached and removed; and the
   * mount is gone exactly when it was seen and detached.
   */
  method UnmountFilesystem(mounted: bool, check: Option<bool>, detaches: bool, removes: bool)
    returns (how: Unmount, stillMounted: bool)
    requires check.Some? ==> check.value == mounted
    ensures how.Ok() <==> check != Some(true) || (detaches && removes)
    ensures how.Gone() <==> check == Some(true) && detaches
    ensures how.Skips() <==> check != Some(true)
    ensures how.Unchecked? <==> check.None?
    ensures stillMounted == (mounted && !how.Gone())
  {
    if check != Some(true) {
      return if check.None? then Unchecked else NothingThere, mounted;
    }
    if !detaches {
      return FailedMounted, true;
    }
    return if removes then Detached else FailedDetached, false;
  }
}
