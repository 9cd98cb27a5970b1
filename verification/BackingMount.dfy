/**
 * The backing-mount protocol as a step system (pkg/driver/utils.go,
 * acquireBackingMount, releaseBackingMount, ensureBackingShareMounted,
 * UnmountBackingShareIfUnused; pkg/driver/driver.go, acquireMountSlot).
 *
 * Any number of goroutines work on any number of backing directories. Every
 * blocking call, every critical section under mountRefsMu, every Anvil call
 * and every mount or unmount is a step of its own, and the answers of the
 * outside world are chosen freely by the action that takes the step.
 */
module BackingMount {
  import opened Wrappers
  import opened ForeignMount
  import opened BackingRefs

  type Tid = nat

  /** Consecutive unanswered probes before a mount counts as stale. */
  const MOUNT_STALE_PROBES := 2

  /** Acquire and Ensure both run ensureBackingShareMounted; only Acquire does so with refHeld. */
  datatype Op = Acquire | Ensure | Release | Direct | Stage

  datatype Loc =
    | FindLock                                    // mountLockFor, under mountRefsMu
    | WaitLock                                    // ml.Lock()
    | Enter                                       // lock held; bump or drop comes next
    | AskShare                                    // first reference taken; GetShare
    | Probing(fails: nat)                         // classifyMount
    | Inspecting                                  // foreignBackingMountServer
    | CountingRefs(view: View)
    | ListingLoops(view: View)
    | Replacing(view: View, seen: set<Dir>)
    | Clearing                                    // ForceUnmountStale
    | WaitSlot
    | Mounting                                    // mount slot held
    | RollingBack                                 // the mount failed; drop the reservation
    | Leaving(held: bool)                         // deferred ml.Unlock()
    | Holding                                     // between acquire and release
    | LastRef                                     // release dropped the last reference
    | Unmounting                                  // release passed every check
    | DirectCheck                                 // UnmountBackingShareIfUnused without the lock
    | DirectUnmounting

  /** Where a goroutine stands: idle, or at some point of one operation on one directory. */
  datatype PC = Idle | At(op: Op, d: Dir, loc: Loc)

  /**
   * `mounts` is the kernel's mount table (directory to server), `shares` the
   * directories whose share the Anvil knows, `loops` those with a loop device
   * under them. `lost` is a history variable: directories whose reference
   * holders have no mount, for one of the three reasons LostAfter names.
   */
  datatype Sys = Sys(
    pcs: map<Tid, PC>, refs: Refs, locks: map<Dir, Option<Tid>>, mu: Option<Tid>,
    slots: set<Tid>, cap: nat, mounts: map<Dir, string>, shares: set<Dir>, loops: set<Dir>, lost: set<Dir>)

  datatype ShareAnswer = ShareFound | ShareMissing | ShareError
  datatype ProbeAnswer = IsMounted | NotMounted | Unanswered
  /**
   * Why UnmountBackingShareIfUnused leaves a mount alone: GetShare does not
   * find the share; nothing is mounted, or the check cannot tell; the loop
   * devices cannot be listed, or one is under the mount.
   */
  datatype Skip = ShareUnknown | NothingMounted | MountUnchecked | LoopsUnknown | LoopsInUse

  datatype MountOutcome = Fails | AlreadyThere | Mounts(server: string)

  /** One step of a goroutine, with the answers the outside world gives it. */
  datatype Step =
    | Begin(op: Op, d: Dir)
    | TakeMu
    | LockFound
    | TakeLock
    | CountRef                                    // bumpBackingRef or dropBackingRef
    | ShareAnswered(share: ShareAnswer)
    | Probe(answer: ProbeAnswer)
    | Inspect(readable: bool, addresses: Option<seq<Option<IP>>>, fqdn: string, dns: Resolver)
    | SeeRefs
    | SeeLoops(answered: bool)
    | Replace(detached: bool, failed: bool)
    | Clear(detached: bool)
    | TakeSlot
    | SlotTimeout
    | MountEnds(outcome: MountOutcome)
    | DropReservation
    | Unlock
    | Recheck
    | SkipUnmount(why: Skip)
    | UnmountEnds(detached: bool)
    | SeeDirect
    | DirectUnmountEnds(detached: bool)

  datatype Action =
    | Spawn(t: Tid)
    | Do(t: Tid, k: Step)
    | LateMount(d: Dir, server: string)           // a timed-out mount syscall completes
    | ShareChanges(d: Dir, exists_: bool)
    | LoopChanges(d: Dir, attached: bool)

  /** The goroutine holds the mount lock of its directory. */
  predicate HasLock(pc: PC) {
    pc.At? && pc.op != Stage && !pc.loc.FindLock? && !pc.loc.WaitLock? && !pc.loc.Holding? && !pc.loc.DirectCheck? &&
      !pc.loc.DirectUnmounting?
  }

  /** The goroutine accounts for one reference on its directory. */
  predicate HasRef(pc: PC) {
    pc.At? && var entering := pc.loc.FindLock? || pc.loc.WaitLock? || pc.loc.Enter?;
    (pc.op == Acquire && !entering && pc.loc != Leaving(false)) || (pc.op == Release && entering)
  }

  /** It has reserved the first reference and has not finished mounting. */
  predicate Reserving(pc: PC) {
    HasRef(pc) && pc.op == Acquire && !pc.loc.Leaving? && !pc.loc.Holding?
  }

  /** The next thing the goroutine does is a critical section under mountRefsMu. */
  predicate NeedsMu(pc: PC) {
    pc.At? && (pc.loc.FindLock? || pc.loc.Enter? || pc.loc.CountingRefs? || pc.loc.RollingBack? || pc.loc.LastRef? ||
        pc.loc.DirectCheck?)
  }

  predicate HasSlot(pc: PC) {
    pc.At? && pc.loc.Mounting?
  }

  /** How ensureBackingShareMounted returns to its caller. */
  function Returned(op: Op, ok: bool): Loc {
    if op != Acquire then Leaving(false) else if ok then Leaving(true) else RollingBack
  }

  /** What Inspect sees: the mount table as it is now, if readable, and the answers. */
  function ViewOf(s: Sys, d: Dir, k: Step): View
    requires k.Inspect?
  {
    View(if !k.readable then None else if d in s.mounts then Some(s.mounts[d]) else Some(""),
         k.addresses, k.fqdn, k.dns)
  }

  /** A goroutine t that stands at pc can take step k now. */
  ghost predicate Can(s: Sys, t: Tid, pc: PC, k: Step) {
    match k
    case Begin(op, d) =>
      if op == Release then pc == At(Acquire, d, Holding)
      else pc == Idle && (op == Ensure || op == Direct ==> d in s.shares)
    case _ => pc.At? && CanAt(s, t, pc.d, pc.loc, k)
  }

  ghost predicate CanAt(s: Sys, t: Tid, d: Dir, loc: Loc, k: Step) {
    match k
    case Begin(_, _) => false
    case TakeMu => NeedsMu(At(Acquire, d, loc)) && s.mu.None?
    case LockFound => loc.FindLock? && s.mu == Some(t)
    case TakeLock => loc.WaitLock? && d in s.locks && s.locks[d].None?
    case CountRef => loc.Enter? && s.mu == Some(t)
    case ShareAnswered(share) =>
      loc.AskShare? && (share.ShareFound? ==> d in s.shares) && (share.ShareMissing? ==> d !in s.shares)
    case Probe(answer) =>
      loc.Probing? && (answer.IsMounted? ==> d in s.mounts) && (answer.NotMounted? ==> d !in s.mounts)
    case Inspect(_, _, _, _) => loc.Inspecting?
    case SeeRefs => loc.CountingRefs? && s.mu == Some(t)
    case SeeLoops(_) => loc.ListingLoops?
    case Replace(_, _) => loc.Replacing?
    case Clear(_) => loc.Clearing?
    case TakeSlot => loc.WaitSlot? && |s.slots| < s.cap
    case SlotTimeout => loc.WaitSlot?
    case MountEnds(outcome) => loc.Mounting? && (outcome.AlreadyThere? ==> d in s.mounts)
    case DropReservation => loc.RollingBack? && s.mu == Some(t)
    case Unlock => loc.Leaving?
    case Recheck => loc.LastRef? && s.mu == Some(t)
    case SkipUnmount(why) =>
      && s.mu != Some(t)
      && (if why.ShareUnknown? then loc.LastRef? else loc.Unmounting? || loc.DirectUnmounting?)
      && (why.NothingMounted? ==> d !in s.mounts) && (why.LoopsInUse? ==> d in s.loops)
    case UnmountEnds(_) => loc.Unmounting?
    case SeeDirect => loc.DirectCheck? && s.mu == Some(t)
    case DirectUnmountEnds(_) => loc.DirectUnmounting?
  }

  /** Where a goroutine that stood at pc stands after step k. */
  ghost function PcAfter(s: Sys, t: Tid, pc: PC, k: Step): PC
    requires Can(s, t, pc, k)
  {
    match k
    case Begin(op, d) => At(op, d, if op == Direct then DirectCheck else if op == Stage then WaitSlot else FindLock)
    case TakeMu => pc
    case LockFound => At(pc.op, pc.d, WaitLock)
    case TakeLock => At(pc.op, pc.d, if pc.op == Ensure then Probing(0) else Enter)
    case CountRef =>
      if pc.op == Acquire then At(pc.op, pc.d, if Count(s.refs, pc.d) == 0 then AskShare else Leaving(true))
      else At(pc.op, pc.d, if Count(Drop(s.refs, pc.d), pc.d) == 0 then LastRef else Leaving(false))
    case ShareAnswered(share) => // a missing share is a success without a mount
      At(pc.op, pc.d, if share.ShareFound? then Probing(0) else Returned(pc.op, share.ShareMissing?))
    case Probe(answer) =>
      At(pc.op, pc.d,
         if answer.IsMounted? then Inspecting
         else if answer.NotMounted? then WaitSlot
         else if pc.loc.fails + 1 < MOUNT_STALE_PROBES then Probing(pc.loc.fails + 1) else Clearing)
    case Inspect(_, _, _, _) =>
      At(pc.op, pc.d, if Foreign(ViewOf(s, pc.d, k)) then CountingRefs(ViewOf(s, pc.d, k)) else Returned(pc.op, true))
    case SeeRefs =>
      var others := Count(s.refs, pc.d) - if pc.op == Acquire then 1 else 0;
      At(pc.op, pc.d, if others > 0 then Returned(pc.op, false) else ListingLoops(pc.loc.view))
    case SeeLoops(answered) =>
      At(pc.op, pc.d, if !answered || pc.d in s.loops then Returned(pc.op, false) else Replacing(pc.loc.view, s.loops))
    case Replace(_, failed) => At(pc.op, pc.d, if failed then Returned(pc.op, false) else WaitSlot)
    case Clear(_) => At(pc.op, pc.d, WaitSlot)
    case TakeSlot => At(pc.op, pc.d, Mounting)
    case SlotTimeout => if pc.op == Stage then Idle else At(pc.op, pc.d, Returned(pc.op, false))
    case MountEnds(outcome) => if pc.op == Stage then Idle else At(pc.op, pc.d, Returned(pc.op, !outcome.Fails?))
    case DropReservation => At(pc.op, pc.d, Leaving(false))
    case Unlock => if pc.loc.held then At(pc.op, pc.d, Holding) else Idle
    case Recheck => At(pc.op, pc.d, if Count(s.refs, pc.d) > 0 then Leaving(false) else Unmounting)
    case SkipUnmount(_) => if pc.loc.DirectUnmounting? then Idle else At(pc.op, pc.d, Leaving(false))
    case UnmountEnds(_) => At(pc.op, pc.d, Leaving(false))
    case SeeDirect => if Count(s.refs, pc.d) > 0 then Idle else At(pc.op, pc.d, DirectUnmounting)
    case DirectUnmountEnds(_) => Idle
  }

  function LocksAfter(s: Sys, t: Tid, pc: PC, k: Step): map<Dir, Option<Tid>> {
    if pc.Idle? then s.locks
    else if k.LockFound? && pc.d !in s.locks then s.locks[pc.d := None]
    else if k.TakeLock? then s.locks[pc.d := Some(t)]
    else if k.Unlock? then s.locks[pc.d := None]
    else s.locks
  }

  /** mountRefsMu is given up by the critical section it was taken for. */
  function MuAfter(s: Sys, t: Tid, k: Step): Option<Tid> {
    if k.TakeMu? then Some(t)
    else if k.LockFound? || k.CountRef? || k.SeeRefs? || k.DropReservation? || k.Recheck? || k.SeeDirect? then None
    else s.mu
  }

  function RefsAfter(s: Sys, pc: PC, k: Step): Refs {
    if pc.Idle? then s.refs
    else if k.CountRef? && pc.op == Acquire then Bump(s.refs, pc.d)
    else if k.CountRef? || k.DropReservation? then Drop(s.refs, pc.d)
    else s.refs
  }

  function SlotsAfter(s: Sys, t: Tid, k: Step): set<Tid> {
    if k.TakeSlot? then s.slots + {t} else if k.MountEnds? then s.slots - {t} else s.slots
  }

  /** The step detaches whatever is mounted at the goroutine's directory. */
  predicate Detaches(k: Step) {
    (k.Replace? || k.Clear? || k.UnmountEnds? || k.DirectUnmountEnds?) && k.detached
  }

  /** Detaching steps that a reference does not stop: a force-clear, or a direct unmount whose check came before. */
  predicate TakesFromUsers(pc: PC, k: Step) {
    Detaches(k) && pc.At? && (k.DirectUnmountEnds? || (k.Clear? && pc.op != Acquire))
  }

  /** An NFS volume is staged at its own path, never at a backing directory. */
  predicate Attaches(pc: PC, k: Step) {
    pc.At? && pc.op != Stage && k.MountEnds? && k.outcome.Mounts?
  }

  /** An acquire that succeeds because GetShare finds nothing. */
  predicate AcquiresUnmounted(k: Step) {
    k.ShareAnswered? && k.share.ShareMissing?
  }

  function MountsAfter(s: Sys, pc: PC, k: Step): map<Dir, string> {
    if pc.Idle? then s.mounts
    else if Detaches(k) then s.mounts - {pc.d}
    else if Attaches(pc, k) then s.mounts[pc.d := k.outcome.server]
    else s.mounts
  }

  function LostAfter(s: Sys, pc: PC, k: Step): set<Dir> {
    if pc.Idle? then s.lost
    else if TakesFromUsers(pc, k) then (if pc.d in s.mounts && pc.d in s.refs then s.lost + {pc.d} else s.lost)
    else if AcquiresUnmounted(k) then (if pc.d in s.mounts then s.lost else s.lost + {pc.d})
    else if Attaches(pc, k) then s.lost - {pc.d}
    else set d | d in s.lost && d in RefsAfter(s, pc, k)
  }

  ghost predicate Enabled(s: Sys, a: Action) {
    match a
    case Spawn(t) => t !in s.pcs
    case Do(t, k) => t in s.pcs && Can(s, t, s.pcs[t], k)
    case _ => true
  }

  ghost function Apply(s: Sys, a: Action): Sys
    requires Enabled(s, a)
  {
    match a
    case Spawn(t) => s.(pcs := s.pcs[t := Idle])
    case Do(t, k) =>
      var pc := s.pcs[t];
      s.(pcs := s.pcs[t := PcAfter(s, t, pc, k)], refs := RefsAfter(s, pc, k), locks := LocksAfter(s, t, pc, k),
         mu := MuAfter(s, t, k), slots := SlotsAfter(s, t, k),
         mounts := MountsAfter(s, pc, k), lost := LostAfter(s, pc, k))
    case LateMount(d, server) => s.(mounts := s.mounts[d := server], lost := s.lost - {d})
    case ShareChanges(d, exists_) => s.(shares := if exists_ then s.shares + {d} else s.shares - {d})
    case LoopChanges(d, attached) => s.(loops := if attached then s.loops + {d} else s.loops - {d})
  }

  datatype MountState = MountHealthy | MountAbsent | MountStale

  /**
   * classifyMount: probe(i) is what the i-th probe answers. Stale takes
   * `probes` unanswered probes in a row; the first answer decides otherwise.
   */
  method ClassifyMount(probes: nat, probe: nat -> ProbeAnswer) returns (state: MountState, used: nat)
    ensures used <= probes
    ensures state.MountStale? <==> forall i :: 0 <= i < probes ==> probe(i).Unanswered?
    ensures !state.MountStale? ==> 0 < used && (forall i :: 0 <= i < used - 1 ==> probe(i).Unanswered?)
    ensures state.MountHealthy? ==> probe(used - 1).IsMounted?
    ensures state.MountAbsent? ==> probe(used - 1).NotMounted?
  {
    used := 0;
    while used < probes
      invariant used <= probes
      invariant forall i :: 0 <= i < used ==> probe(i).Unanswered?
    {
      var answer := probe(used);
      used := used + 1;
      if answer.IsMounted? {
        return MountHealthy, used;
      }
      if answer.NotMounted? {
        return MountAbsent, used;
      }
    }
    return MountStale, used;
  }

  /** A fresh process; mounts and loop devices may be inherited from the host. */
  ghost predicate Init(s: Sys) {
    s.pcs == map[] && s.refs == map[] && s.locks == map[] && s.mu.None? && s.slots == {} && s.cap > 0 && s.lost == {}
  }

  /** The actions form a run from s that ends in s'. */
  ghost predicate Run(s: Sys, acts: seq<Action>, s': Sys)
    decreases |acts|
  {
    if acts == [] then s' == s
    else Enabled(s, acts[0]) && Run(Apply(s, acts[0]), acts[1..], s')
  }
}
