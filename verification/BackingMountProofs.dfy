/**
 * What every run of the backing-mount protocol keeps. The invariant is proved
 * conjunct by conjunct; the theorems at the end hold for every run from a
 * fresh process, with any number of goroutines and directories.
 */
module BackingMountProofs {
  import opened Wrappers
  import opened ForeignMount
  import opened BackingRefs
  import opened BackingMount

  /** The goroutines that account for a reference on d. */
  ghost function Holders(s: Sys, d: Dir): set<Tid> {
    set t | t in s.pcs && HasRef(s.pcs[t]) && s.pcs[t].d == d
  }

  /** Inside ensureBackingShareMounted, past GetShare. */
  ghost predicate InEnsure(loc: Loc) {
    loc.Probing? || loc.Inspecting? || loc.CountingRefs? || loc.ListingLoops? || loc.Replacing? || loc.Clearing? ||
      loc.WaitSlot? || loc.Mounting?
  }

  /** The locations each operation can be at. */
  ghost predicate WellPlaced(pc: PC) {
    pc.At? ==>
      match pc.op
      case Acquire => !pc.loc.LastRef? && !pc.loc.Unmounting? && !pc.loc.DirectCheck? && !pc.loc.DirectUnmounting?
      case Ensure => pc.loc.FindLock? || pc.loc.WaitLock? || InEnsure(pc.loc) || pc.loc == Leaving(false)
      case Release => pc.loc.FindLock? || pc.loc.WaitLock? || pc.loc.Enter? || pc.loc.LastRef? ||
        pc.loc.Unmounting? || pc.loc == Leaving(false)
      case Direct => pc.loc.DirectCheck? || pc.loc.DirectUnmounting?
      case Stage => pc.loc.WaitSlot? || pc.loc.Mounting?
  }

  ghost predicate LockInv(s: Sys) {
    && (forall t :: t in s.pcs ==> WellPlaced(s.pcs[t]))
    && (forall t :: t in s.pcs && HasLock(s.pcs[t]) ==> s.pcs[t].d in s.locks && s.locks[s.pcs[t].d] == Some(t))
    && (forall d :: d in s.locks && s.locks[d].Some? ==>
          s.locks[d].value in s.pcs && HasLock(s.pcs[s.locks[d].value]) && s.pcs[s.locks[d].value].d == d)
    && (forall t :: t in s.pcs && s.pcs[t].At? && s.pcs[t].loc.WaitLock? ==> s.pcs[t].d in s.locks)
  }

  ghost predicate SlotInv(s: Sys) {
    && s.slots == (set t | t in s.pcs && HasSlot(s.pcs[t]))
    && |s.slots| <= s.cap && s.cap > 0
  }

  ghost predicate MuInv(s: Sys) {
    s.mu.Some? ==> s.mu.value in s.pcs && NeedsMu(s.pcs[s.mu.value])
  }

  /** Reference conservation. */
  ghost predicate RefInv(s: Sys) {
    && NoZeros(s.refs)
    && forall d :: Count(s.refs, d) == |Holders(s, d)|
  }

  /** From here on the goroutine unmounts only if nobody holds a reference. */
  ghost predicate Sole(pc: PC) {
    pc.At? && ((pc.op == Ensure && (pc.loc.ListingLoops? || pc.loc.Replacing?)) || pc.loc.LastRef? ||
        pc.loc.Unmounting?)
  }

  /** Whoever mounts or unmounts under the lock is the only user, or there is none. */
  ghost predicate SoloInv(s: Sys) {
    && (forall t :: t in s.pcs && Reserving(s.pcs[t]) ==> Holders(s, s.pcs[t].d) == {t})
    && (forall t :: t in s.pcs && Sole(s.pcs[t]) ==> Holders(s, s.pcs[t].d) == {})
  }

  /** The goroutine counts on its directory being mounted. */
  ghost predicate Relies(pc: PC) {
    HasRef(pc) && (Reserving(pc) ==>
        pc.loc.Inspecting? || pc.loc.CountingRefs? || pc.loc.ListingLoops? || pc.loc.Replacing?)
  }

  ghost predicate MountInv(s: Sys) {
    && (forall t :: t in s.pcs && Relies(s.pcs[t]) ==> s.pcs[t].d in s.mounts || s.pcs[t].d in s.lost)
    && (forall d :: d in s.lost ==> d !in s.mounts && d in s.refs)
  }

  ghost predicate Evidence(pc: PC) {
    pc.At? ==>
      && (pc.loc.CountingRefs? || pc.loc.ListingLoops? || pc.loc.Replacing? ==> Foreign(pc.loc.view))
      && (pc.loc.Replacing? ==> pc.d !in pc.loc.seen)
      && (pc.loc.Probing? ==> pc.loc.fails < MOUNT_STALE_PROBES)
  }

  ghost predicate EvidenceInv(s: Sys) {
    forall t :: t in s.pcs ==> Evidence(s.pcs[t])
  }

  ghost predicate Inv(s: Sys) {
    LockInv(s) && SlotInv(s) && MuInv(s) && RefInv(s) && SoloInv(s) && MountInv(s) && EvidenceInv(s)
  }

  // ------------------------------------------------- what one step changes

  lemma PlacedKept(s: Sys, t: Tid, pc: PC, k: Step)
    requires Can(s, t, pc, k) && WellPlaced(pc)
    ensures WellPlaced(PcAfter(s, t, pc, k))
    ensures Evidence(pc) ==> Evidence(PcAfter(s, t, pc, k))
  {
  }

  lemma LockKept(s: Sys, t: Tid, pc: PC, k: Step)
    requires Can(s, t, pc, k) && WellPlaced(pc)
    ensures var pc' := PcAfter(s, t, pc, k);
            && HasLock(pc') == (k.TakeLock? || (HasLock(pc) && !k.Unlock?))
            && (HasLock(pc') ==> pc.At? && pc'.d == pc.d)
            && (k.TakeLock? || k.Unlock? || k.LockFound? ==> pc.At? && HasLock(pc) == k.Unlock?)
            && (pc'.At? && pc'.loc.WaitLock? ==> pc.At? && pc'.d == pc.d && (k.LockFound? || pc.loc.WaitLock?))
            && (k.TakeLock? ==> pc.d in s.locks && s.locks[pc.d].None?)
  {
  }

  lemma RefKept(s: Sys, t: Tid, pc: PC, k: Step)
    requires Can(s, t, pc, k) && WellPlaced(pc)
    ensures var pc' := PcAfter(s, t, pc, k);
            && HasRef(pc') == (if k.CountRef? then pc.op == Acquire else HasRef(pc) && !k.DropReservation?)
            && (k.CountRef? ==>
                  pc.At? && HasLock(pc) && HasRef(pc) == (pc.op == Release) && (pc.op == Acquire || pc.op == Release))
            && (k.DropReservation? ==> pc.At? && HasLock(pc) && HasRef(pc))
            && (HasRef(pc') ==> pc.At? && pc'.d == pc.d)
  {
  }

  lemma SoleKept(s: Sys, t: Tid, pc: PC, k: Step)
    requires Can(s, t, pc, k) && WellPlaced(pc)
    ensures var pc' := PcAfter(s, t, pc, k);
            && (Reserving(pc') ==>
                  pc.At? && pc'.d == pc.d &&
                    (Reserving(pc) || (k.CountRef? && pc.op == Acquire && Count(s.refs, pc.d) == 0)))
            && (Sole(pc') ==>
                  && pc.At? && pc'.d == pc.d
                  && (Sole(pc) || (k.SeeRefs? && Count(s.refs, pc.d) == 0) ||
                        (k.CountRef? && Count(RefsAfter(s, pc, k), pc.d) == 0)))
  {
  }

  lemma RelyKept(s: Sys, t: Tid, pc: PC, k: Step)
    requires Can(s, t, pc, k) && WellPlaced(pc)
    ensures var pc' := PcAfter(s, t, pc, k);
            && (Relies(pc') ==>
                  && pc.At? && pc'.d == pc.d && !Detaches(k)
                  && (Relies(pc) || (k.CountRef? && pc.op == Acquire && Count(s.refs, pc.d) > 0) ||
                        AcquiresUnmounted(k) || pc.d in MountsAfter(s, pc, k)))
            && (Detaches(k) ==> pc.At? && (TakesFromUsers(pc, k) || Reserving(pc) || Sole(pc)))
            && (AcquiresUnmounted(k) ==> Reserving(pc))
            && (Attaches(pc, k) || Detaches(k) || AcquiresUnmounted(k) ==> !k.CountRef? && !k.DropReservation?)
  {
  }

  lemma SlotKept(s: Sys, t: Tid, pc: PC, k: Step)
    requires Can(s, t, pc, k)
    ensures HasSlot(PcAfter(s, t, pc, k)) == (k.TakeSlot? || (HasSlot(pc) && !k.MountEnds?))
    ensures k.TakeSlot? ==> !HasSlot(pc) && |s.slots| < s.cap
  {
  }

  lemma MuKept(s: Sys, t: Tid, pc: PC, k: Step)
    requires Can(s, t, pc, k) && (s.mu == Some(t) ==> NeedsMu(pc))
    ensures MuAfter(s, t, k) == Some(t) ==> NeedsMu(PcAfter(s, t, pc, k))
  {
  }

  // ------------------------------------------------------ the moving goroutine

  lemma LockMoves(s: Sys, s': Sys, t: Tid, pc: PC, k: Step)
    requires LockInv(s) && t in s.pcs && s'.pcs == s.pcs[t := pc] && s'.locks == LocksAfter(s, t, s.pcs[t], k)
    requires WellPlaced(pc)
    requires HasLock(pc) == (k.TakeLock? || (HasLock(s.pcs[t]) && !k.Unlock?))
    requires HasLock(pc) ==> s.pcs[t].At? && pc.d == s.pcs[t].d
    requires k.TakeLock? || k.Unlock? || k.LockFound? ==> s.pcs[t].At? && HasLock(s.pcs[t]) == k.Unlock?
    requires pc.At? && pc.loc.WaitLock? ==>
      s.pcs[t].At? && pc.d == s.pcs[t].d && (k.LockFound? || s.pcs[t].loc.WaitLock?)
    requires k.TakeLock? ==> s.pcs[t].d in s.locks && s.locks[s.pcs[t].d].None?
    ensures LockInv(s')
  {
  }

  lemma SlotMoves(s: Sys, s': Sys, t: Tid, pc: PC, k: Step)
    requires SlotInv(s) && t in s.pcs && s'.pcs == s.pcs[t := pc] && s'.slots == SlotsAfter(s, t, k) && s'.cap == s.cap
    requires HasSlot(pc) == (k.TakeSlot? || (HasSlot(s.pcs[t]) && !k.MountEnds?))
    requires k.TakeSlot? ==> !HasSlot(s.pcs[t]) && |s.slots| < s.cap
    ensures SlotInv(s')
  {
    assert s'.slots == (set u | u in s'.pcs && HasSlot(s'.pcs[u]));
  }

  /** Holders change only when the moving goroutine gains or gives up its reference. */
  lemma HoldersMove(s: Sys, s': Sys, t: Tid, pc: PC, d: Dir)
    requires t in s.pcs && s'.pcs == s.pcs[t := pc]
    requires HasRef(pc) && HasRef(s.pcs[t]) ==> pc.d == s.pcs[t].d
    ensures Holders(s', d) ==
            if HasRef(pc) && pc.d == d then Holders(s, d) + {t}
            else if HasRef(s.pcs[t]) && s.pcs[t].d == d then Holders(s, d) - {t}
            else Holders(s, d)
    ensures t in Holders(s, d) <==> HasRef(s.pcs[t]) && s.pcs[t].d == d
  {
  }

  /** What a step does to the reference of the goroutine that takes it. */
  ghost predicate RefStep(pc: PC, pc': PC, k: Step) {
    && HasRef(pc') == (if k.CountRef? then pc.At? && pc.op == Acquire else HasRef(pc) && !k.DropReservation?)
    && (k.CountRef? ==>
          pc.At? && HasLock(pc) && HasRef(pc) == (pc.op == Release) && (pc.op == Acquire || pc.op == Release))
    && (k.DropReservation? ==> pc.At? && HasLock(pc) && HasRef(pc))
    && (HasRef(pc') ==> pc.At? && pc'.d == pc.d)
  }

  lemma RefMoves(s: Sys, s': Sys, t: Tid, pc: PC, k: Step)
    requires RefInv(s) && t in s.pcs && s'.pcs == s.pcs[t := pc] && s'.refs == RefsAfter(s, s.pcs[t], k)
    requires RefStep(s.pcs[t], pc, k)
    ensures RefInv(s')
  {
    forall d ensures NoZeros(s'.refs) && Count(s'.refs, d) == |Holders(s', d)| {
      HoldersMove(s, s', t, pc, d);
      assert Count(s.refs, d) == |Holders(s, d)|;
      if k.CountRef? || k.DropReservation? {
        var e := s.pcs[t].d;
        HoldersMove(s, s', t, pc, e);
        assert Count(s.refs, e) == |Holders(s, e)|;
        CountAfter(s.refs, e, d);
        if k.CountRef? && s.pcs[t].op == Acquire {
          assert s'.refs == Bump(s.refs, e);
        } else {
          assert t in Holders(s, e) && Count(s.refs, e) > 0;
          assert s'.refs == Drop(s.refs, e);
        }
      } else {
        assert s'.refs == s.refs && HasRef(pc) == HasRef(s.pcs[t]);
        assert Holders(s', d) == Holders(s, d);
      }
    }
  }

  /** Another goroutine at work under a mount lock sees no reference come or go. */
  lemma OthersUndisturbed(s: Sys, s': Sys, t: Tid, pc: PC, k: Step, u: Tid)
    requires LockInv(s) && t in s.pcs && s'.pcs == s.pcs[t := pc]
    requires RefStep(s.pcs[t], pc, k)
    requires u in s.pcs && u != t && HasLock(s.pcs[u])
    ensures Holders(s', s.pcs[u].d) == Holders(s, s.pcs[u].d)
  {
    HoldersMove(s, s', t, pc, s.pcs[u].d);
  }

  lemma WorkersHoldLock(pc: PC)
    requires WellPlaced(pc) && (Reserving(pc) || Sole(pc))
    ensures HasLock(pc)
  {
  }

  lemma ReservationMoves(s: Sys, s': Sys, t: Tid, pc: PC, k: Step)
    requires RefInv(s) && SoloInv(s) && t in s.pcs && s'.pcs == s.pcs[t := pc]
    requires RefStep(s.pcs[t], pc, k) && Reserving(pc)
    requires Reserving(s.pcs[t]) || (k.CountRef? && Count(s.refs, pc.d) == 0)
    ensures Holders(s', pc.d) == {t}
  {
    HoldersMove(s, s', t, pc, pc.d);
    assert Count(s.refs, pc.d) == |Holders(s, pc.d)|;
  }

  lemma SoleMoves(s: Sys, s': Sys, t: Tid, pc: PC, k: Step)
    requires SoloInv(s) && RefInv(s') && t in s.pcs && s'.pcs == s.pcs[t := pc]
    requires RefStep(s.pcs[t], pc, k) && WellPlaced(pc) && Sole(pc)
    requires (s.pcs[t].At? && Sole(s.pcs[t]) && pc.d == s.pcs[t].d) || Count(s'.refs, pc.d) == 0
    ensures Holders(s', pc.d) == {}
  {
    HoldersMove(s, s', t, pc, pc.d);
    assert Count(s'.refs, pc.d) == |Holders(s', pc.d)|;
  }

  lemma SoloMoves(s: Sys, s': Sys, t: Tid, pc: PC, k: Step)
    requires LockInv(s) && SoloInv(s) && t in s.pcs && s'.pcs == s.pcs[t := pc]
    requires RefStep(s.pcs[t], pc, k)
    requires Reserving(pc) ==> Holders(s', pc.d) == {t}
    requires Sole(pc) ==> Holders(s', pc.d) == {}
    ensures SoloInv(s')
  {
    forall u | u in s'.pcs && u != t && (Reserving(s'.pcs[u]) || Sole(s'.pcs[u]))
      ensures Holders(s', s'.pcs[u].d) == Holders(s, s.pcs[u].d)
    {
      WorkersHoldLock(s.pcs[u]);
      OthersUndisturbed(s, s', t, pc, k, u);
    }
  }

  /** Whoever relies on d and is not the goroutine that detaches it is told so through `lost`. */
  lemma RelianceKept(s: Sys, s': Sys, t: Tid, pc: PC, k: Step, u: Tid)
    requires RefInv(s) && SoloInv(s) && MountInv(s)
    requires t in s.pcs && s'.pcs == s.pcs[t := pc]
    requires s'.mounts == MountsAfter(s, s.pcs[t], k) && s'.lost == LostAfter(s, s.pcs[t], k) &&
      s'.refs == RefsAfter(s, s.pcs[t], k)
    requires RefInv(s')
    requires Detaches(k) ==> s.pcs[t].At? && (TakesFromUsers(s.pcs[t], k) || Reserving(s.pcs[t]) || Sole(s.pcs[t]))
    requires u in s.pcs && u in s'.pcs && Relies(s.pcs[u]) && Relies(s'.pcs[u]) && s'.pcs[u].d == s.pcs[u].d &&
      (u == t ==> !Detaches(k))
    ensures s.pcs[u].d in s'.mounts || s.pcs[u].d in s'.lost
  {
    var d := s.pcs[u].d;
    assert u in Holders(s, d) && u in Holders(s', d);
    assert Count(s.refs, d) == |Holders(s, d)| && Count(s'.refs, d) == |Holders(s', d)|;
    assert d in s.refs && d in s'.refs;
  }

  /** A goroutine that finds the count positive finds the share mounted, or lost. */
  lemma SecondReference(s: Sys, t: Tid)
    requires LockInv(s) && RefInv(s) && MountInv(s)
    requires t in s.pcs && HasLock(s.pcs[t]) && !HasRef(s.pcs[t]) && Count(s.refs, s.pcs[t].d) > 0
    ensures s.pcs[t].d in s.mounts || s.pcs[t].d in s.lost
  {
    var d := s.pcs[t].d;
    assert Count(s.refs, d) == |Holders(s, d)|;
    assert Holders(s, d) != {};
    var w :| w in Holders(s, d);
    if Reserving(s.pcs[w]) { WorkersHoldLock(s.pcs[w]); }
    assert Relies(s.pcs[w]);
  }

  lemma LostMoves(s: Sys, s': Sys, t: Tid, k: Step)
    requires RefInv(s) && MountInv(s) && t in s.pcs
    requires s'.mounts == MountsAfter(s, s.pcs[t], k) && s'.lost == LostAfter(s, s.pcs[t], k) &&
      s'.refs == RefsAfter(s, s.pcs[t], k)
    requires AcquiresUnmounted(k) ==> Reserving(s.pcs[t])
    requires Attaches(s.pcs[t], k) || Detaches(k) || AcquiresUnmounted(k) ==> !k.CountRef? && !k.DropReservation?
    ensures forall d :: d in s'.lost ==> d !in s'.mounts && d in s'.refs
  {
    if AcquiresUnmounted(k) {
      var d := s.pcs[t].d;
      assert t in Holders(s, d);
      assert Count(s.refs, d) == |Holders(s, d)|;
    }
  }

  lemma MountMoves(s: Sys, s': Sys, t: Tid, pc: PC, k: Step)
    requires LockInv(s) && RefInv(s) && SoloInv(s) && MountInv(s) && RefInv(s')
    requires t in s.pcs && s'.pcs == s.pcs[t := pc]
    requires s'.mounts == MountsAfter(s, s.pcs[t], k) && s'.lost == LostAfter(s, s.pcs[t], k) &&
      s'.refs == RefsAfter(s, s.pcs[t], k)
    requires RefStep(s.pcs[t], pc, k)
    requires Relies(pc) ==>
      && s.pcs[t].At? && pc.d == s.pcs[t].d && !Detaches(k)
      && (Relies(s.pcs[t]) || (k.CountRef? && s.pcs[t].op == Acquire && Count(s.refs, pc.d) > 0) ||
            AcquiresUnmounted(k) || pc.d in s'.mounts)
    requires Detaches(k) ==> s.pcs[t].At? && (TakesFromUsers(s.pcs[t], k) || Reserving(s.pcs[t]) || Sole(s.pcs[t]))
    requires AcquiresUnmounted(k) ==> Reserving(s.pcs[t])
    requires Attaches(s.pcs[t], k) || Detaches(k) || AcquiresUnmounted(k) ==> !k.CountRef? && !k.DropReservation?
    ensures MountInv(s')
  {
    LostMoves(s, s', t, k);
    forall u | u in s'.pcs && Relies(s'.pcs[u]) ensures s'.pcs[u].d in s'.mounts || s'.pcs[u].d in s'.lost {
      if u != t || Relies(s.pcs[t]) {
        RelianceKept(s, s', t, pc, k, u);
      } else if pc.d !in s'.mounts && k.CountRef? {
        SecondReference(s, t);
        CountAfter(s.refs, pc.d, pc.d);
      }
    }
  }

  /** s' is s after goroutine t, standing at pc, took step k. */
  ghost predicate Moved(s: Sys, t: Tid, pc: PC, k: Step, s': Sys) {
    && t in s.pcs && s.pcs[t] == pc && Can(s, t, pc, k)
    && s'.pcs == s.pcs[t := PcAfter(s, t, pc, k)]
    && s'.refs == RefsAfter(s, pc, k) && s'.mounts == MountsAfter(s, pc, k) && s'.lost == LostAfter(s, pc, k)
  }

  lemma StepLocks(s: Sys, t: Tid, pc: PC, k: Step, s': Sys)
    requires LockInv(s) && Moved(s, t, pc, k, s') && s'.locks == LocksAfter(s, t, pc, k)
    ensures LockInv(s')
  {
    PlacedKept(s, t, pc, k);
    LockKept(s, t, pc, k);
    LockMoves(s, s', t, PcAfter(s, t, pc, k), k);
  }

  lemma StepSlots(s: Sys, t: Tid, pc: PC, k: Step, s': Sys)
    requires SlotInv(s) && Moved(s, t, pc, k, s') && s'.slots == SlotsAfter(s, t, k) && s'.cap == s.cap
    ensures SlotInv(s')
  {
    SlotKept(s, t, pc, k);
    SlotMoves(s, s', t, PcAfter(s, t, pc, k), k);
  }

  lemma StepControl(s: Sys, t: Tid, pc: PC, k: Step, s': Sys)
    requires LockInv(s) && SlotInv(s) && MuInv(s) && EvidenceInv(s) && Moved(s, t, pc, k, s')
    requires s'.locks == LocksAfter(s, t, pc, k) && s'.slots == SlotsAfter(s, t, k) && s'.cap == s.cap &&
      s'.mu == MuAfter(s, t, k)
    ensures LockInv(s') && SlotInv(s') && MuInv(s') && EvidenceInv(s')
  {
    StepLocks(s, t, pc, k, s');
    StepSlots(s, t, pc, k, s');
    PlacedKept(s, t, pc, k);
    MuKept(s, t, pc, k);
  }

  lemma StepRefs(s: Sys, t: Tid, pc: PC, k: Step, s': Sys)
    requires LockInv(s) && RefInv(s) && SoloInv(s) && Moved(s, t, pc, k, s')
    ensures RefInv(s') && SoloInv(s') && RefStep(pc, s'.pcs[t], k)
  {
    var pc' := PcAfter(s, t, pc, k);
    PlacedKept(s, t, pc, k);
    RefKept(s, t, pc, k);
    RefMoves(s, s', t, pc', k);
    SoleKept(s, t, pc, k);
    if Reserving(pc') { ReservationMoves(s, s', t, pc', k); }
    if Sole(pc') { SoleMoves(s, s', t, pc', k); }
    SoloMoves(s, s', t, pc', k);
  }

  lemma StepMounts(s: Sys, t: Tid, pc: PC, k: Step, s': Sys)
    requires LockInv(s) && RefInv(s) && SoloInv(s) && MountInv(s) && Moved(s, t, pc, k, s')
    requires RefInv(s') && RefStep(pc, s'.pcs[t], k)
    ensures MountInv(s')
  {
    RelyKept(s, t, pc, k);
    MountMoves(s, s', t, PcAfter(s, t, pc, k), k);
  }

  lemma StepInv(s: Sys, t: Tid, k: Step)
    requires Inv(s) && Enabled(s, Do(t, k))
    ensures Inv(Apply(s, Do(t, k)))
  {
    var s' := Apply(s, Do(t, k));
    StepControl(s, t, s.pcs[t], k, s');
    StepRefs(s, t, s.pcs[t], k, s');
    StepMounts(s, t, s.pcs[t], k, s');
  }

  /** The outside world moves no lock, slot or reference, and takes no mount away. */
  lemma OutsideKeeps(s: Sys, s': Sys)
    requires Inv(s)
    requires s'.pcs == s.pcs && s'.refs == s.refs && s'.locks == s.locks && s'.mu == s.mu && s'.slots == s.slots &&
      s'.cap == s.cap
    requires MountInv(s')
    ensures Inv(s')
  {
    forall d ensures Holders(s', d) == Holders(s, d) {
    }
    forall d ensures Count(s'.refs, d) == |Holders(s', d)| {
      assert Count(s.refs, d) == |Holders(s, d)|;
    }
  }

  lemma SpawnKeepsRefs(s: Sys, t: Tid, s': Sys)
    requires RefInv(s) && SoloInv(s) && t !in s.pcs && s'.pcs == s.pcs[t := Idle] && s'.refs == s.refs
    ensures RefInv(s') && SoloInv(s')
  {
    forall d ensures Holders(s', d) == Holders(s, d) {
    }
    forall d ensures Count(s'.refs, d) == |Holders(s', d)| {
      assert Count(s.refs, d) == |Holders(s, d)|;
    }
  }

  lemma SpawnKeepsLocks(s: Sys, t: Tid, s': Sys)
    requires LockInv(s) && SlotInv(s) && MuInv(s) && t !in s.pcs && s' == s.(pcs := s.pcs[t := Idle])
    ensures LockInv(s') && SlotInv(s') && MuInv(s')
  {
    assert s'.slots == (set u | u in s'.pcs && HasSlot(s'.pcs[u]));
  }

  lemma SpawnKeepsMounts(s: Sys, t: Tid, s': Sys)
    requires MountInv(s) && EvidenceInv(s) && t !in s.pcs && s' == s.(pcs := s.pcs[t := Idle])
    ensures MountInv(s') && EvidenceInv(s')
  {
  }

  lemma SpawnKeeps(s: Sys, t: Tid, s': Sys)
    requires Inv(s) && t !in s.pcs && s' == s.(pcs := s.pcs[t := Idle])
    ensures Inv(s')
  {
    SpawnKeepsRefs(s, t, s');
    SpawnKeepsLocks(s, t, s');
    SpawnKeepsMounts(s, t, s');
  }

  lemma AnyStepInv(s: Sys, a: Action)
    requires Inv(s) && Enabled(s, a)
    ensures Inv(Apply(s, a))
  {
    if a.Do? {
      StepInv(s, a.t, a.k);
    } else if a.Spawn? {
      SpawnKeeps(s, a.t, Apply(s, a));
    } else {
      OutsideKeeps(s, Apply(s, a));
    }
  }

  lemma {:induction false} RunInv(s: Sys, acts: seq<Action>, s': Sys)
    requires Inv(s) && Run(s, acts, s')
    ensures Inv(s')
    decreases |acts|
  {
    if acts != [] {
      AnyStepInv(s, acts[0]);
      RunInv(Apply(s, acts[0]), acts[1..], s');
    }
  }

  lemma InitInv(s: Sys)
    requires Init(s)
    ensures Inv(s)
  {
    forall d ensures Count(s.refs, d) == |Holders(s, d)| {
      assert Holders(s, d) == {};
    }
  }
}
