/**
 * The reference counts and lock table of CSIDriver
 * (pkg/driver/utils.go, bumpBackingRef, dropBackingRef, mountLockFor).
 */
module BackingRefs {
  type Dir = nat
  type Refs = map<Dir, nat>

  function Count(refs: Refs, d: Dir): nat {
    if d in refs then refs[d] else 0
  }

  /** The map has an entry exactly for the positive counts. */
  ghost predicate NoZeros(refs: Refs) {
    forall d :: d in refs ==> refs[d] > 0
  }

  function Bump(refs: Refs, d: Dir): Refs {
    refs[d := Count(refs, d) + 1]
  }

  function Drop(refs: Refs, d: Dir): Refs {
    var n := if Count(refs, d) > 0 then Count(refs, d) - 1 else 0;
    if n == 0 then refs - {d} else refs[d := n]
  }

  lemma CountAfter(refs: Refs, d: Dir, e: Dir)
    requires NoZeros(refs)
    ensures NoZeros(Bump(refs, d)) && NoZeros(Drop(refs, d))
    ensures Count(Bump(refs, d), e) == Count(refs, e) + (if e == d then 1 else 0)
    ensures Count(refs, d) > 0 ==> Count(Drop(refs, d), e) == Count(refs, e) - (if e == d then 1 else 0)
  {
  }

  /** A failed mount hands back its reservation: the map is as it was, entry for entry. */
  lemma RollbackRestoresCount(refs: Refs, d: Dir)
    requires NoZeros(refs)
    ensures Drop(Bump(refs, d), d) == refs
  {
    if d in refs {
      assert Drop(Bump(refs, d), d) == refs[d := refs[d]] == refs;
    } else {
      assert Drop(Bump(refs, d), d) == refs[d := 1] - {d} == refs;
    }
  }

  /** One mutex per directory, created on first use and never removed. */
  class Mutex {
    constructor () {
    }
  }

  class BackingMounts {
    var refs: Refs
    var locks: map<Dir, Mutex>

    constructor ()
      ensures refs == map[] && locks == map[]
    {
      refs, locks := map[], map[];
    }

    method BumpBackingRef(d: Dir) returns (first: bool)
      modifies this`refs
      ensures refs == Bump(old(refs), d)
      ensures first <==> Count(old(refs), d) == 0
    {
      var n := if d in refs then refs[d] else 0;
      first := n == 0;
      refs := refs[d := n + 1];
    }

    method DropBackingRef(d: Dir) returns (last: bool)
      modifies this`refs
      ensures refs == Drop(old(refs), d)
      ensures last <==> Count(refs, d) == 0
    {
      if d in refs && refs[d] > 0 {
        refs := refs[d := refs[d] - 1];
      }
      if d !in refs || refs[d] == 0 {
        refs := refs - {d};
        return true;
      }
      return false;
    }

    /** Two callers asking for one directory always get the same lock. */
    method MountLockFor(d: Dir) returns (lock: Mutex)
      modifies this`locks
      ensures d in locks && locks[d] == lock
      ensures forall e :: e in old(locks) ==> e in locks && locks[e] == old(locks)[e]
      ensures locks.Keys == old(locks).Keys + {d}
      ensures d !in old(locks) ==> fresh(lock)
    {
      if d in locks {
        return locks[d];
      }
      lock := new Mutex();
      locks := locks[d := lock];
    }
  }
}
