/**
 * The promises of the backing-mount protocol, for every run from a fresh
 * process: reference conservation, mount safety for reference holders,
 * justified replacement and absence of deadlock.
 */
module BackingMountTheorems {
  import opened Wrappers
  import opened ForeignMount
  import opened BackingRefs
  import opened BackingMount
  import opened BackingMountProofs

  /** The operations between a successful acquire and the drop in their release. */
  ghost function Settled(s: Sys, d: Dir): set<Tid> {
    set t | t in s.pcs && HasRef(s.pcs[t]) && !Reserving(s.pcs[t]) && s.pcs[t].d == d
  }

  /** The operations in the middle of a first acquire. */
  ghost function Reservers(s: Sys, d: Dir): set<Tid> {
    set t | t in s.pcs && Reserving(s.pcs[t]) && s.pcs[t].d == d
  }

  lemma Reachable(s0: Sys, acts: seq<Action>, s: Sys)
    requires Init(s0) && Run(s0, acts, s)
    ensures Inv(s)
  {
    InitInv(s0);
    RunInv(s0, acts, s);
  }

  /**
   * The count of a directory is the number of operations that hold it plus
   * the one that is mounting it for the first time, if any; there is an entry
   * exactly for the directories in use.
   */
  lemma ReferenceConservation(s0: Sys, acts: seq<Action>, s: Sys, d: Dir)
    requires Init(s0) && Run(s0, acts, s)
    ensures Count(s.refs, d) == |Settled(s, d)| + |Reservers(s, d)|
    ensures |Reservers(s, d)| <= 1
    ensures Reservers(s, d) != {} ==> Settled(s, d) == {}
    ensures d in s.refs <==> Settled(s, d) + Reservers(s, d) != {}
  {
    Reachable(s0, acts, s);
    assert Settled(s, d) + Reservers(s, d) == Holders(s, d);
    assert Count(s.refs, d) == |Holders(s, d)|;
    if t :| t in Reservers(s, d) {
      assert Reservers(s, d) == {t};
    }
  }

  /** An operation that holds a reference has its share mounted, exactly unless the directory is lost. */
  lemma HolderIsMounted(s0: Sys, acts: seq<Action>, s: Sys, t: Tid)
    requires Init(s0) && Run(s0, acts, s)
    requires t in s.pcs && s.pcs[t].At? && s.pcs[t].loc.Holding?
    ensures s.pcs[t].d in s.mounts <==> s.pcs[t].d !in s.lost
  {
    Reachable(s0, acts, s);
    assert WellPlaced(s.pcs[t]);
    assert Relies(s.pcs[t]);
  }

  /** While the mount lock is free, a positive count means mounted, exactly unless the directory is lost. */
  lemma FreeLockIsMounted(s0: Sys, acts: seq<Action>, s: Sys, d: Dir)
    requires Init(s0) && Run(s0, acts, s)
    requires d in s.locks && s.locks[d].None? && d in s.refs
    ensures d in s.mounts <==> d !in s.lost
  {
    Reachable(s0, acts, s);
    assert Count(s.refs, d) == |Holders(s, d)|;
    assert Holders(s, d) != {};
    var t :| t in Holders(s, d);
    if Reserving(s.pcs[t]) { WorkersHoldLock(s.pcs[t]); }
    assert Relies(s.pcs[t]);
  }

  /**
   * The step is a force-clear by a caller without a reference or a direct
   * unmount, on a mounted directory with references, or an acquire of an
   * unmounted directory whose share the Anvil does not know.
   */
  ghost predicate Hazard(s: Sys, a: Action, d: Dir) {
    && a.Do? && a.t in s.pcs && s.pcs[a.t].At? && s.pcs[a.t].d == d
    && (|| (d in s.mounts && d in s.refs &&
          ((a.k == Clear(true) && s.pcs[a.t].op != Acquire) || a.k == DirectUnmountEnds(true)))
        || (d !in s.mounts && d !in s.shares && a.k == ShareAnswered(ShareMissing)))
  }

  /** A directory becomes lost in exactly these three ways. */
  lemma WaysToLose(s: Sys, a: Action, d: Dir)
    requires Enabled(s, a) && d !in s.lost
    ensures d in Apply(s, a).lost <==> Hazard(s, a, d)
  {
  }

  /** None of them is taken on this directory along the run. */
  ghost predicate Quiet(s: Sys, acts: seq<Action>, d: Dir)
    decreases |acts|
  {
    acts != [] && Enabled(s, acts[0]) ==> !Hazard(s, acts[0], d) && Quiet(Apply(s, acts[0]), acts[1..], d)
  }

  lemma {:induction false} NothingLost(s: Sys, acts: seq<Action>, s': Sys, d: Dir)
    requires Run(s, acts, s') && d !in s.lost && Quiet(s, acts, d)
    ensures d !in s'.lost
    decreases |acts|
  {
    if acts != [] {
      WaysToLose(s, acts[0], d);
      NothingLost(Apply(s, acts[0]), acts[1..], s', d);
    }
  }

  /** The directory is mounted now or at some later point of the run. */
  ghost predicate EverMounted(s: Sys, acts: seq<Action>, d: Dir)
    decreases |acts|
  {
    d in s.mounts || (acts != [] && Enabled(s, acts[0]) && EverMounted(Apply(s, acts[0]), acts[1..], d))
  }

  /** Some action of the run is a hazard on the directory, and after it the directory is never mounted. */
  ghost predicate HazardLasts(s: Sys, acts: seq<Action>, d: Dir)
    decreases |acts|
  {
    && acts != [] && Enabled(s, acts[0])
    && var next := Apply(s, acts[0]);
       (Hazard(s, acts[0], d) && !EverMounted(next, acts[1..], d)) || HazardLasts(next, acts[1..], d)
  }

  lemma {:induction false} LostByHazard(s: Sys, acts: seq<Action>, s': Sys, d: Dir)
    requires Inv(s) && Run(s, acts, s') && d in s'.lost
    ensures (d in s.lost && !EverMounted(s, acts, d)) || HazardLasts(s, acts, d)
    decreases |acts|
  {
    if acts != [] {
      AnyStepInv(s, acts[0]);
      LostByHazard(Apply(s, acts[0]), acts[1..], s', d);
      if d !in s.lost { WaysToLose(s, acts[0], d); }
    }
  }

  lemma {:induction false} StaysUnmounted(s: Sys, acts: seq<Action>, s': Sys, d: Dir)
    requires Run(s, acts, s') && (!EverMounted(s, acts, d) || HazardLasts(s, acts, d))
    ensures d !in s'.mounts
    decreases |acts|
  {
    if acts != [] {
      StaysUnmounted(Apply(s, acts[0]), acts[1..], s', d);
    }
  }

  /**
   * A reference holder is without its mount if and only if one of the three
   * befell its directory somewhere in the run and the directory has not been
   * mounted since.
   */
  lemma HolderUnmountedExactly(s0: Sys, acts: seq<Action>, s: Sys, t: Tid)
    requires Init(s0) && Run(s0, acts, s)
    requires t in s.pcs && s.pcs[t].At? && s.pcs[t].loc.Holding?
    ensures s.pcs[t].d !in s.mounts <==> HazardLasts(s0, acts, s.pcs[t].d)
  {
    var d := s.pcs[t].d;
    HolderIsMounted(s0, acts, s, t);
    if d in s.lost {
      InitInv(s0);
      LostByHazard(s0, acts, s, d);
    }
    if HazardLasts(s0, acts, d) { StaysUnmounted(s0, acts, s, d); }
  }

  /**
   * From any point of any run at which the directory is mounted, or nobody
   * uses it: while none of the three befalls it, every reference holder has
   * its share mounted.
   */
  lemma HolderAlwaysMounted(s0: Sys, before: seq<Action>, m: Sys, rest: seq<Action>, s: Sys, t: Tid)
    requires Init(s0) && Run(s0, before, m) && Run(m, rest, s)
    requires t in s.pcs && s.pcs[t].At? && s.pcs[t].loc.Holding?
    requires var d := s.pcs[t].d; (d in m.mounts || d !in m.refs) && Quiet(m, rest, d)
    ensures s.pcs[t].d in s.mounts
  {
    Reachable(s0, before, m);
    NothingLost(m, rest, s, s.pcs[t].d);
    RunInv(m, rest, s);
    assert WellPlaced(s.pcs[t]);
    assert Relies(s.pcs[t]);
  }

  /** Mounts go away by a step of the goroutine that stands at the directory. */
  lemma DetachedBy(s: Sys, a: Action, d: Dir)
    requires Enabled(s, a) && d in s.mounts && d !in Apply(s, a).mounts
    ensures a.Do? && a.t in s.pcs && s.pcs[a.t].At? && s.pcs[a.t].d == d && Detaches(a.k) &&
      Can(s, a.t, s.pcs[a.t], a.k)
  {
  }

  /** What the detaching goroutine is, given the state of every other. */
  lemma DetachesAlone(s: Sys, t: Tid, pc: PC, k: Step)
    requires SoloInv(s) && t in s.pcs && s.pcs[t] == pc && WellPlaced(pc) && Can(s, t, pc, k) && Detaches(k)
    ensures pc.At?
    ensures || Holders(s, pc.d) <= {t}
            || (pc == At(Ensure, pc.d, Clearing) && k == Clear(true))
            || (pc == At(Direct, pc.d, DirectUnmounting) && k == DirectUnmountEnds(true))
  {
    RelyKept(s, t, pc, k);
  }

  /**
   * In any run, a step that detaches a mount while an operation other than the
   * one taking the step accounts for a reference is a force-clear by a caller
   * without a reference, or a direct unmount.
   */
  lemma TakenFromOthers(s0: Sys, acts: seq<Action>, s: Sys, a: Action, d: Dir, u: Tid)
    requires Init(s0) && Run(s0, acts, s) && Enabled(s, a)
    requires d in s.mounts && d !in Apply(s, a).mounts
    requires u in Holders(s, d) && !(a.Do? && a.t == u)
    ensures a.Do? && ((s.pcs[a.t] == At(Ensure, d, Clearing) && a.k == Clear(true)) ||
        (s.pcs[a.t] == At(Direct, d, DirectUnmounting) && a.k == DirectUnmountEnds(true)))
  {
    Reachable(s0, acts, s);
    DetachedBy(s, a, d);
    assert WellPlaced(s.pcs[a.t]);
    DetachesAlone(s, a.t, s.pcs[a.t], a.k);
  }

  /**
   * A healthy mount is detached for replacement only when the mount table, the
   * Anvil and the lookup of its server answered, the Anvil lists no address of
   * the server and neither does the FQDN if it resolved, the loop devices
   * listed none of its files, and at the very moment of the unmount nobody but
   * the caller itself holds a reference.
   */
  lemma ReplacementIsJustified(s0: Sys, acts: seq<Action>, s: Sys, t: Tid, failed: bool)
    requires Init(s0) && Run(s0, acts, s) && Enabled(s, Do(t, Replace(true, failed)))
    ensures s.pcs[t].At? && s.pcs[t].loc.Replacing? && Foreign(s.pcs[t].loc.view)
    ensures var v := s.pcs[t].loc.view;
            && v.server.Some? && v.addresses.Some? && Resolves(v.server.value, v.dns)
            && forall ip :: StandsFor(v.server.value, ip, v.dns) ==> !Offered(ip, v)
    ensures s.pcs[t].d !in s.pcs[t].loc.seen
    ensures Holders(s, s.pcs[t].d) == if s.pcs[t].op == Acquire then {t} else {}
  {
    Reachable(s0, acts, s);
    assert WellPlaced(s.pcs[t]) && Evidence(s.pcs[t]);
    ForeignIsUnlisted(s.pcs[t].loc.view);
  }

  /** A first acquire is never refused the replacement on account of its own reference. */
  lemma OwnReferenceDoesNotBlock(s0: Sys, acts: seq<Action>, s: Sys, t: Tid)
    requires Init(s0) && Run(s0, acts, s) && Enabled(s, Do(t, SeeRefs)) && s.pcs[t].op == Acquire
    ensures Apply(s, Do(t, SeeRefs)).pcs[t] == At(Acquire, s.pcs[t].d, ListingLoops(s.pcs[t].loc.view))
  {
    Reachable(s0, acts, s);
    assert Reserving(s.pcs[t]);
    assert Count(s.refs, s.pcs[t].d) == |Holders(s, s.pcs[t].d)| == |{t}|;
  }

  /** The release that drops the last reference finds it still the last when it checks again. */
  lemma RecheckAgrees(s0: Sys, acts: seq<Action>, s: Sys, t: Tid)
    requires Init(s0) && Run(s0, acts, s) && Enabled(s, Do(t, Recheck))
    ensures Apply(s, Do(t, Recheck)).pcs[t] == At(s.pcs[t].op, s.pcs[t].d, Unmounting)
  {
    Reachable(s0, acts, s);
    assert Sole(s.pcs[t]);
    assert Count(s.refs, s.pcs[t].d) == |Holders(s, s.pcs[t].d)|;
  }

  // ------------------------------------------------------------ stale probes

  /** The steps goroutine t takes in a run, in order. */
  ghost function StepsOf(acts: seq<Action>, t: Tid): seq<Step> {
    if acts == [] then []
    else (if acts[0].Do? && acts[0].t == t then [acts[0].k] else []) + StepsOf(acts[1..], t)
  }

  ghost predicate EndsUnanswered(h: seq<Step>, n: nat) {
    n <= |h| && forall i :: |h| - n <= i < |h| ==> h[i] == Probe(Unanswered)
  }

  /** What the history of a goroutine says about its probes. */
  ghost predicate Probed(s: Sys, t: Tid, h: seq<Step>) {
    t in s.pcs && s.pcs[t].At? ==>
      && (s.pcs[t].loc.Probing? ==> EndsUnanswered(h, s.pcs[t].loc.fails) && s.pcs[t].loc.fails < MOUNT_STALE_PROBES)
      && (s.pcs[t].loc.Clearing? ==> EndsUnanswered(h, MOUNT_STALE_PROBES))
  }

  lemma ProbedKept(s: Sys, a: Action, t: Tid, h: seq<Step>)
    requires Enabled(s, a) && Probed(s, t, h)
    ensures Probed(Apply(s, a), t, if a.Do? && a.t == t then h + [a.k] else h)
  {
  }

  lemma HistoryGrows(h: seq<Step>, acts: seq<Action>, t: Tid)
    requires acts != []
    ensures (if acts[0].Do? && acts[0].t == t then h + [acts[0].k] else h) + StepsOf(acts[1..], t) ==
      h + StepsOf(acts, t)
  {
  }

  lemma {:induction false} ProbedRun(s: Sys, acts: seq<Action>, s': Sys, t: Tid, h: seq<Step>)
    requires Run(s, acts, s') && Probed(s, t, h)
    ensures Probed(s', t, h + StepsOf(acts, t))
    decreases |acts|
  {
    if acts == [] {
      assert h + StepsOf(acts, t) == h;
    } else {
      ProbedKept(s, acts[0], t, h);
      HistoryGrows(h, acts, t);
      ProbedRun(Apply(s, acts[0]), acts[1..], s', t, if acts[0].Do? && acts[0].t == t then h + [acts[0].k] else h);
    }
  }

  /** A mount is force-cleared only straight after MOUNT_STALE_PROBES unanswered probes in a row. */
  lemma ForceClearFollowsStaleProbes(s0: Sys, acts: seq<Action>, s: Sys, t: Tid, detached: bool)
    requires Init(s0) && Run(s0, acts, s) && Enabled(s, Do(t, Clear(detached)))
    ensures EndsUnanswered(StepsOf(acts, t), MOUNT_STALE_PROBES)
  {
    ProbedRun(s0, acts, s, t, []);
    assert [] + StepsOf(acts, t) == StepsOf(acts, t);
  }

  // --------------------------------------------------------------- deadlock

  /** t cannot move until u gives something up. */
  ghost predicate WaitsFor(s: Sys, t: Tid, u: Tid) {
    && t in s.pcs && u in s.pcs && s.pcs[t].At?
    && (|| (s.pcs[t].loc.WaitLock? && s.pcs[t].d in s.locks && s.locks[s.pcs[t].d] == Some(u))
        || (s.pcs[t].loc.WaitSlot? && |s.slots| >= s.cap && u in s.slots)
        || (NeedsMu(s.pcs[t]) && s.mu == Some(u) && u != t))
  }

  /** The rank of what t waits for: mount lock, then mount slot, then mountRefsMu; 4 if it waits for nothing. */
  ghost function Rank(s: Sys, t: Tid): nat
    requires t in s.pcs
  {
    if s.pcs[t].Idle? then 4
    else if s.pcs[t].loc.WaitLock? then 1
    else if s.pcs[t].loc.WaitSlot? then 2
    else if NeedsMu(s.pcs[t]) && s.mu != Some(t) then 3
    else 4
  }

  /** Whoever holds what t waits for waits, if at all, for something of higher rank. */
  lemma WaitingClimbs(s: Sys, t: Tid, u: Tid)
    requires Inv(s) && WaitsFor(s, t, u)
    ensures Rank(s, t) < Rank(s, u)
  {
    assert WellPlaced(s.pcs[t]) && WellPlaced(s.pcs[u]);
  }

  ghost predicate WaitChain(s: Sys, chain: seq<Tid>) {
    forall i :: 0 <= i < |chain| - 1 ==> WaitsFor(s, chain[i], chain[i + 1])
  }

  lemma {:induction false} ChainClimbs(s: Sys, chain: seq<Tid>)
    requires Inv(s) && |chain| >= 2 && WaitChain(s, chain)
    ensures chain[0] in s.pcs && chain[|chain| - 1] in s.pcs && Rank(s, chain[0]) < Rank(s, chain[|chain| - 1])
    decreases |chain|
  {
    assert WaitsFor(s, chain[0], chain[1]);
    WaitingClimbs(s, chain[0], chain[1]);
    if |chain| > 2 {
      var rest := chain[1..];
      forall i | 0 <= i < |rest| - 1 ensures WaitsFor(s, rest[i], rest[i + 1]) {
        assert WaitsFor(s, chain[i + 1], chain[i + 2]);
      }
      ChainClimbs(s, rest);
    }
  }

  /** No reachable state has a wait cycle among mount locks, mount slots and mountRefsMu. */
  lemma NoWaitCycle(s0: Sys, acts: seq<Action>, s: Sys, chain: seq<Tid>)
    requires Init(s0) && Run(s0, acts, s)
    requires |chain| >= 2 && WaitChain(s, chain)
    ensures chain[0] != chain[|chain| - 1]
  {
    Reachable(s0, acts, s);
    ChainClimbs(s, chain);
  }

  /** Every goroutine that waits can move after all, or waits for one that exists. */
  lemma BlockedByAnother(s: Sys, t: Tid)
    requires Inv(s) && t in s.pcs && Rank(s, t) < 4
    requires !exists k :: Enabled(s, Do(t, k)) && !k.SlotTimeout?
    ensures exists u :: WaitsFor(s, t, u)
  {
    var pc := s.pcs[t];
    assert WellPlaced(pc);
    if pc.loc.WaitLock? {
      assert !Enabled(s, Do(t, TakeLock));
      assert WaitsFor(s, t, s.locks[pc.d].value);
    } else if pc.loc.WaitSlot? {
      assert !Enabled(s, Do(t, TakeSlot));
      assert s.slots != {};
      var u :| u in s.slots;
      assert WaitsFor(s, t, u);
    } else {
      assert !Enabled(s, Do(t, TakeMu));
      assert WaitsFor(s, t, s.mu.value);
    }
  }

  /** A goroutine that waits for nothing and is inside an operation has a step to take. */
  lemma UnblockedMoves(s: Sys, t: Tid)
    requires Inv(s) && t in s.pcs && s.pcs[t].At? && !s.pcs[t].loc.Holding? && Rank(s, t) == 4
    ensures exists k :: Enabled(s, Do(t, k)) && !k.SlotTimeout?
  {
    var pc := s.pcs[t];
    assert WellPlaced(pc);
    var k := match pc.loc
      case FindLock => LockFound
      case Enter => CountRef
      case AskShare => ShareAnswered(ShareError)
      case Probing(_) => Probe(Unanswered)
      case Inspecting => Inspect(false, None, "", Resolver(map[], map[]))
      case CountingRefs(_) => SeeRefs
      case ListingLoops(_) => SeeLoops(false)
      case Replacing(_, _) => Replace(true, false)
      case Clearing => Clear(true)
      case Mounting => MountEnds(Fails)
      case RollingBack => DropReservation
      case Leaving(_) => Unlock
      case LastRef => Recheck
      case Unmounting => UnmountEnds(true)
      case DirectCheck => SeeDirect
      case _ => DirectUnmountEnds(true);
    assert Enabled(s, Do(t, k));
  }

  /** The goroutine is in the middle of an operation, not just holding a reference. */
  ghost predicate Busy(s: Sys, t: Tid) {
    t in s.pcs && s.pcs[t].At? && !s.pcs[t].loc.Holding?
  }

  /** The goroutine can take a step of its own, without help from a timeout. */
  ghost predicate CanMove(s: Sys, t: Tid) {
    exists k :: Enabled(s, Do(t, k)) && !k.SlotTimeout?
  }

  lemma ChainGrows(s: Sys, t: Tid, rest: seq<Tid>)
    requires rest != [] && WaitsFor(s, t, rest[0]) && WaitChain(s, rest)
    ensures WaitChain(s, [t] + rest) && ([t] + rest)[0] == t && ([t] + rest)[|rest|] == rest[|rest| - 1]
  {
    var chain := [t] + rest;
    forall i | 0 <= i < |chain| - 1 ensures WaitsFor(s, chain[i], chain[i + 1]) {
      if i > 0 { assert WaitsFor(s, rest[i - 1], rest[i - 1 + 1]); }
    }
  }

  lemma {:induction false} SomeoneMoves(s: Sys, t: Tid) returns (chain: seq<Tid>)
    requires Inv(s) && Busy(s, t)
    ensures chain != [] && chain[0] == t && WaitChain(s, chain)
    ensures Busy(s, chain[|chain| - 1]) && CanMove(s, chain[|chain| - 1])
    decreases 4 - Rank(s, t)
  {
    chain := [t];
    if Rank(s, t) == 4 {
      UnblockedMoves(s, t);
    } else if !CanMove(s, t) {
      BlockedByAnother(s, t);
      var u :| WaitsFor(s, t, u);
      WaitingClimbs(s, t, u);
      assert WellPlaced(s.pcs[u]);
      var rest := SomeoneMoves(s, u);
      ChainGrows(s, t, rest);
      chain := [t] + rest;
    }
  }

  /**
   * No deadlock: from every goroutine in the middle of an operation the waits
   * lead, in zero or more steps, to one in the middle of an operation that can
   * move by itself.
   */
  lemma NoDeadlock(s0: Sys, acts: seq<Action>, s: Sys, t: Tid) returns (chain: seq<Tid>)
    requires Init(s0) && Run(s0, acts, s) && Busy(s, t)
    ensures chain != [] && chain[0] == t && WaitChain(s, chain)
    ensures Busy(s, chain[|chain| - 1]) && CanMove(s, chain[|chain| - 1])
  {
    Reachable(s0, acts, s);
    chain := SomeoneMoves(s, t);
  }
}
