/**
 * What every goroutine of the backing-mount protocol does next, and how its
 * operations end, in terms of the steps it takes and the answers it gets
 * (pkg/driver/utils.go, acquireBackingMount, releaseBackingMount,
 * ensureBackingShareMounted, UnmountBackingShareIfUnused).
 */
module BackingMountOutcomes {
  import opened Wrappers
  import opened ForeignMount
  import opened BackingRefs
  import opened BackingMount
  import opened BackingMountProofs

  /** A step a goroutine took, the state it took it in, and where it stood afterwards. */
  datatype Visit = Visit(s: Sys, k: Step, after: PC)

  /** What one action, from s to s', adds to the steps of t. */
  ghost function Added(s: Sys, a: Action, s': Sys, t: Tid): seq<Visit> {
    if a.Do? && a.t == t && !a.k.TakeMu? && t in s'.pcs then [Visit(s, a.k, s'.pcs[t])] else []
  }

  /** The steps of t along a run, without the waits for mountRefsMu. */
  ghost function Visits(s: Sys, acts: seq<Action>, t: Tid): seq<Visit>
    decreases |acts|
  {
    if acts == [] || !Enabled(s, acts[0]) then []
    else
      Added(s, acts[0], Apply(s, acts[0]), t) + Visits(Apply(s, acts[0]), acts[1..], t)
  }

  /** The operation and directory the step belongs to. */
  function OpOf(v: Visit, t: Tid): (Op, Dir)
    requires t in v.s.pcs && (v.k.Begin? || v.s.pcs[t].At?)
  {
    if v.k.Begin? then (v.k.op, v.k.d) else (v.s.pcs[t].op, v.s.pcs[t].d)
  }

  /** t could take this step in this state. */
  ghost predicate Taken(v: Visit, t: Tid) {
    && t in v.s.pcs && WellPlaced(v.s.pcs[t]) && Can(v.s, t, v.s.pcs[t], v.k) && !v.k.TakeMu?
    && v.after == PcAfter(v.s, t, v.s.pcs[t], v.k)
  }

  /** The step gives up the mount lock and ends with a reference held. */
  predicate Wins(v: Visit, d: Dir) {
    v.k.Unlock? && v.after == At(Acquire, d, Holding)
  }

  /** The step gives up the mount lock, and nothing is held. */
  predicate Ends(v: Visit) {
    v.k.Unlock? && v.after == Idle
  }

  /** The mount, or the check of the mount, went well. */
  predicate Succeeds(v: Visit, op: Op, d: Dir) {
    if op == Acquire then Wins(v, d) else Ends(v)
  }

  /** It did not: an acquire hands its reservation back first. */
  predicate Fails(v: Visit, op: Op) {
    if op == Acquire then v.k.DropReservation? else Ends(v)
  }

  predicate AsksForSlot(k: Step) {
    k.TakeSlot? || k.SlotTimeout?
  }

  /** What a goroutine does after step v is step w: the protocol, answer by answer. */
  ghost predicate Follows(v: Visit, w: Visit, t: Tid)
    requires t in v.s.pcs && (v.k.Begin? || v.s.pcs[t].At?)
  {
    var (op, d) := OpOf(v, t);
    match v.k
    case Begin(_, _) =>
      if op == Stage then AsksForSlot(w.k) else if op == Direct then w.k.SeeDirect? else w.k.LockFound?
    case LockFound => w.k.TakeLock?
    case TakeLock => if op == Ensure then w.k.Probe? else w.k.CountRef?
    case CountRef =>
      if op == Acquire then (if d in v.s.refs && v.s.refs[d] > 0 then Wins(w, d) else w.k.ShareAnswered?)
      else if d in v.s.refs && v.s.refs[d] > 1 then Ends(w)
      else w.k.Recheck? || w.k == SkipUnmount(ShareUnknown)
    case ShareAnswered(share) =>
      if share.ShareFound? then w.k.Probe?
      else if share.ShareMissing? then Succeeds(w, op, d) else Fails(w, op)
    case Probe(answer) =>
      if answer.IsMounted? then w.k.Inspect?
      else if answer.NotMounted? then AsksForSlot(w.k)
      else w.k.Probe? || w.k.Clear?
    case Inspect(_, _, _, _) => if Foreign(ViewOf(v.s, d, v.k)) then w.k.SeeRefs? else Succeeds(w, op, d)
    case SeeRefs =>
      if d in v.s.refs && v.s.refs[d] > (if op == Acquire then 1 else 0) then Fails(w, op) else w.k.SeeLoops?
    case SeeLoops(answered) => if !answered || d in v.s.loops then Fails(w, op) else w.k.Replace?
    case Replace(_, failed) => if failed then Fails(w, op) else AsksForSlot(w.k)
    case Clear(_) => AsksForSlot(w.k)
    case TakeSlot => w.k.MountEnds?
    case SlotTimeout => if op == Stage then w.k.Begin? else Fails(w, op)
    case MountEnds(outcome) =>
      if op == Stage then w.k.Begin? else if outcome.Fails? then Fails(w, op) else Succeeds(w, op, d)
    case DropReservation => Ends(w)
    case Unlock => if Wins(v, d) then w.k == Begin(Release, d) else w.k.Begin? && w.k.op != Release
    case Recheck => if d in v.s.refs && v.s.refs[d] > 0 then Ends(w) else w.k.UnmountEnds? || w.k.SkipUnmount?
    case SkipUnmount(_) => if op == Direct then w.k.Begin? else Ends(w)
    case UnmountEnds(_) => Ends(w)
    case SeeDirect =>
      if d in v.s.refs && v.s.refs[d] > 0 then w.k.Begin? else w.k.DirectUnmountEnds? || w.k.SkipUnmount?
    case DirectUnmountEnds(_) => w.k.Begin?
    case TakeMu => false
  }

  predicate InsideEnsure(k: Step) {
    k.ShareAnswered? || k.Probe? || k.Inspect? || k.SeeRefs? || k.SeeLoops? || k.Replace? || k.Clear? || k.TakeSlot? ||
    k.SlotTimeout? || k.MountEnds?
  }

  lemma NextInEnsure(v: Visit, w: Visit, t: Tid)
    requires Taken(v, t) && Taken(w, t) && w.s.pcs[t] == v.after && NoZeros(v.s.refs) && InsideEnsure(v.k)
    ensures v.s.pcs[t].At? && Follows(v, w, t)
  {
  }

  lemma NextOutside(v: Visit, w: Visit, t: Tid)
    requires Taken(v, t) && Taken(w, t) && w.s.pcs[t] == v.after && NoZeros(v.s.refs) && !InsideEnsure(v.k)
    ensures (v.k.Begin? || v.s.pcs[t].At?) && Follows(v, w, t)
  {
  }

  lemma NextStep(v: Visit, w: Visit, t: Tid)
    requires Taken(v, t) && Taken(w, t) && w.s.pcs[t] == v.after && NoZeros(v.s.refs)
    ensures (v.k.Begin? || v.s.pcs[t].At?) && Follows(v, w, t)
  {
    if InsideEnsure(v.k) { NextInEnsure(v, w, t); } else { NextOutside(v, w, t); }
  }

  /** A probe is repeated after the first unanswered one, and the mount force-cleared after the second. */
  lemma ThirdStep(u: Visit, v: Visit, w: Visit, t: Tid)
    requires Taken(u, t) && Taken(v, t) && Taken(w, t) && v.k == Probe(Unanswered)
    requires v.s.pcs[t] == u.after && w.s.pcs[t] == v.after
    requires u.k.Probe? ==> Evidence(u.s.pcs[t])
    ensures if u.k.Probe? then w.k.Clear? else w.k.Probe?
  {
  }

  // -------------------------------------------------------------------- runs

  ghost predicate AllTaken(h: seq<Visit>, t: Tid) {
    forall i {:trigger Taken(h[i], t)} :: 0 <= i < |h| ==> Taken(h[i], t)
  }

  ghost predicate AllReached(h: seq<Visit>) {
    forall i {:trigger Inv(h[i].s)} :: 0 <= i < |h| ==> Inv(h[i].s)
  }

  ghost predicate Link(v: Visit, w: Visit, t: Tid) {
    t in w.s.pcs && w.s.pcs[t] == v.after
  }

  /** Each step finds t where the step before left it. */
  ghost predicate Linked(h: seq<Visit>, t: Tid) {
    forall i, j :: 0 <= i && i + 1 == j < |h| ==> Link(h[i], h[j], t)
  }

  /** t stands where its last step left it. */
  ghost predicate Stands(s: Sys, t: Tid, h: seq<Visit>) {
    h != [] ==> t in s.pcs && s.pcs[t] == h[|h| - 1].after
  }

  lemma LinkedGrows(h: seq<Visit>, t: Tid, v: Visit)
    requires Linked(h, t) && Stands(v.s, t, h) && t in v.s.pcs
    ensures Linked(h + [v], t)
  {
    var h' := h + [v];
    forall i, j | 0 <= i && i + 1 == j < |h'| ensures Link(h'[i], h'[j], t) {
      if j < |h| { assert h'[j] == h[j] && h'[i] == h[i] && Link(h[i], h[j], t); }
    }
  }

  lemma TakenGrows(h: seq<Visit>, t: Tid, v: Visit)
    requires AllTaken(h, t) && Taken(v, t)
    ensures AllTaken(h + [v], t)
  {
    forall i | 0 <= i < |h| + 1 ensures Taken((h + [v])[i], t) {
      if i < |h| { assert (h + [v])[i] == h[i] && Taken(h[i], t); }
    }
  }

  lemma ReachedGrows(h: seq<Visit>, v: Visit)
    requires AllReached(h) && Inv(v.s)
    ensures AllReached(h + [v])
  {
    forall i | 0 <= i < |h| + 1 ensures Inv((h + [v])[i].s) {
      if i < |h| { assert (h + [v])[i] == h[i] && Inv(h[i].s); }
    }
  }

  lemma StepIsTaken(s: Sys, t: Tid, k: Step)
    requires LockInv(s) && Enabled(s, Do(t, k)) && !k.TakeMu?
    ensures t in Apply(s, Do(t, k)).pcs && Taken(Visit(s, k, Apply(s, Do(t, k)).pcs[t]), t)
  {
    assert WellPlaced(s.pcs[t]);
  }

  lemma OtherStep(s: Sys, a: Action, t: Tid, h: seq<Visit>)
    requires Enabled(s, a) && Stands(s, t, h) && !(a.Do? && a.t == t && !a.k.TakeMu?)
    ensures Stands(Apply(s, a), t, h)
  {
  }

  /** The history of t up to s. */
  ghost predicate Books(s: Sys, t: Tid, h: seq<Visit>) {
    Inv(s) && AllTaken(h, t) && AllReached(h) && Linked(h, t) && Stands(s, t, h)
  }

  lemma BooksKept(s: Sys, a: Action, t: Tid, h: seq<Visit>)
    requires Books(s, t, h) && Enabled(s, a)
    ensures Books(Apply(s, a), t, h + Added(s, a, Apply(s, a), t))
  {
    var s' := Apply(s, a);
    AnyStepInv(s, a);
    if a.Do? && a.t == t && !a.k.TakeMu? {
      var v := Visit(s, a.k, s'.pcs[t]);
      StepIsTaken(s, t, a.k);
      LinkedGrows(h, t, v);
      TakenGrows(h, t, v);
      ReachedGrows(h, v);
    } else {
      OtherStep(s, a, t, h);
      assert h + [] == h;
    }
  }

  /** Whatever every action keeps about a state and the history of t, a run keeps. */
  lemma {:induction false} RunKeeps(s: Sys, acts: seq<Action>, s': Sys, t: Tid, h: seq<Visit>,
                                    kept: (Sys, seq<Visit>) -> bool)
    requires Run(s, acts, s') && kept(s, h)
    requires forall m, a, g :: kept(m, g) && Enabled(m, a) ==> kept(Apply(m, a), g + Added(m, a, Apply(m, a), t))
    ensures kept(s', h + Visits(s, acts, t))
    decreases |acts|
  {
    if acts == [] {
      assert h + Visits(s, acts, t) == h;
    } else {
      var next := Apply(s, acts[0]);
      var added := Added(s, acts[0], next, t);
      RunKeeps(next, acts[1..], s', t, h + added, kept);
      assert h + (added + Visits(next, acts[1..], t)) == h + added + Visits(next, acts[1..], t);
    }
  }

  lemma RunBooks(s0: Sys, acts: seq<Action>, s: Sys, t: Tid)
    requires Init(s0) && Run(s0, acts, s)
    ensures Books(s, t, Visits(s0, acts, t))
  {
    InitInv(s0);
    var kept := (m: Sys, g: seq<Visit>) => Books(m, t, g);
    forall m, a, g | kept(m, g) && Enabled(m, a) ensures kept(Apply(m, a), g + Added(m, a, Apply(m, a), t)) {
      BooksKept(m, a, t, g);
    }
    RunKeeps(s0, acts, s, t, [], kept);
    assert [] + Visits(s0, acts, t) == Visits(s0, acts, t);
  }

  // --------------------------------------------------------------- theorems

  /**
   * In every interleaving, each goroutine goes step by step as the protocol
   * says, given the answers it gets and the counts it sees.
   */
  lemma GoesByTheBook(s0: Sys, acts: seq<Action>, s: Sys, t: Tid, i: nat)
    requires Init(s0) && Run(s0, acts, s) && i + 1 < |Visits(s0, acts, t)|
    ensures var v, w := Visits(s0, acts, t)[i], Visits(s0, acts, t)[i + 1];
            t in v.s.pcs && (v.k.Begin? || v.s.pcs[t].At?) && Follows(v, w, t)
  {
    RunBooks(s0, acts, s, t);
    NextInBooks(s, t, Visits(s0, acts, t), i, i + 1);
  }

  lemma NextInBooks(s: Sys, t: Tid, h: seq<Visit>, i: nat, j: nat)
    requires Books(s, t, h) && i + 1 == j < |h|
    ensures t in h[i].s.pcs && (h[i].k.Begin? || h[i].s.pcs[t].At?) && Follows(h[i], h[j], t)
  {
    assert Taken(h[i], t) && Taken(h[j], t) && Inv(h[i].s) && Link(h[i], h[j], t);
    NextStep(h[i], h[j], t);
  }

  /** After a first unanswered probe comes another; after the second the mount is force-cleared. */
  lemma ProbesByTheBook(s0: Sys, acts: seq<Action>, s: Sys, t: Tid, i: nat)
    requires Init(s0) && Run(s0, acts, s) && 0 < i && i + 1 < |Visits(s0, acts, t)|
    requires Visits(s0, acts, t)[i].k == Probe(Unanswered)
    ensures var h := Visits(s0, acts, t); if h[i - 1].k.Probe? then h[i + 1].k.Clear? else h[i + 1].k.Probe?
  {
    RunBooks(s0, acts, s, t);
    ProbeInBooks(s, t, Visits(s0, acts, t), i - 1, i, i + 1);
  }

  lemma ProbeInBooks(s: Sys, t: Tid, h: seq<Visit>, i: nat, j: nat, n: nat)
    requires Books(s, t, h) && i + 1 == j && j + 1 == n < |h| && h[j].k == Probe(Unanswered)
    ensures if h[i].k.Probe? then h[n].k.Clear? else h[n].k.Probe?
  {
    assert Taken(h[i], t) && Taken(h[j], t) && Taken(h[n], t) && Inv(h[i].s);
    assert Link(h[i], h[j], t) && Link(h[j], h[n], t);
    assert Evidence(h[i].s.pcs[t]);
    ThirdStep(h[i], h[j], h[n], t);
  }

  /** The step is the last of an acquire that ends well. */
  ghost predicate DecidesWell(v: Visit, d: Dir) {
    || (v.k.CountRef? && d in v.s.refs && v.s.refs[d] > 0)
    || v.k == ShareAnswered(ShareMissing)
    || (v.k.Inspect? && !Foreign(ViewOf(v.s, d, v.k)))
    || (v.k.MountEnds? && !v.k.outcome.Fails?)
  }

  /** The step is the one an acquire fails by. */
  ghost predicate DecidesBadly(v: Visit, d: Dir) {
    || v.k == ShareAnswered(ShareError)
    || (v.k.SeeRefs? && d in v.s.refs && v.s.refs[d] > 1)
    || (v.k.SeeLoops? && (!v.k.answered || d in v.s.loops))
    || (v.k.Replace? && v.k.failed)
    || v.k.SlotTimeout?
    || (v.k.MountEnds? && v.k.outcome.Fails?)
  }

  /**
   * An acquire goes on to hold its reference exactly after a step that found a
   * mount in use, a mount that is not foreign, an unknown share, or a mount
   * that worked; and it gives its reservation back exactly after one that
   * failed or was refused.
   */
  lemma AcquireEnds(s0: Sys, acts: seq<Action>, s: Sys, t: Tid, i: nat)
    requires Init(s0) && Run(s0, acts, s) && i + 1 < |Visits(s0, acts, t)|
    requires var v := Visits(s0, acts, t)[i]; t in v.s.pcs && v.s.pcs[t].At? && v.s.pcs[t].op == Acquire
    ensures var v, w := Visits(s0, acts, t)[i], Visits(s0, acts, t)[i + 1];
            var d := v.s.pcs[t].d;
            && (v.k.Unlock? || (Wins(w, d) <==> DecidesWell(v, d)))
            && (w.k.DropReservation? <==> DecidesBadly(v, d))
  {
    RunBooks(s0, acts, s, t);
    EndInBooks(s, t, Visits(s0, acts, t), i, i + 1);
  }

  lemma EndInBooks(s: Sys, t: Tid, h: seq<Visit>, i: nat, j: nat)
    requires Books(s, t, h) && i + 1 == j < |h| && t in h[i].s.pcs && h[i].s.pcs[t].At? && h[i].s.pcs[t].op == Acquire
    ensures var d := h[i].s.pcs[t].d;
            && (h[i].k.Unlock? || (Wins(h[j], d) <==> DecidesWell(h[i], d)))
            && (h[j].k.DropReservation? <==> DecidesBadly(h[i], d))
  {
    assert Taken(h[i], t) && Taken(h[j], t) && Inv(h[i].s) && Link(h[i], h[j], t);
    PairEnds(h[i], h[j], t);
  }

  lemma PairEnds(v: Visit, w: Visit, t: Tid)
    requires Taken(v, t) && Taken(w, t) && NoZeros(v.s.refs) && w.s.pcs[t] == v.after
    requires v.s.pcs[t].At? && v.s.pcs[t].op == Acquire
    ensures var d := v.s.pcs[t].d;
            && (v.k.Unlock? || (Wins(w, d) <==> DecidesWell(v, d)))
            && (w.k.DropReservation? <==> DecidesBadly(v, d))
  {
    NextStep(v, w, t);
  }

  /**
   * No answer of the outside world is shut out: where a goroutine asks, every
   * answer that is true of the state, and every failure to answer, can come.
   */
  lemma EveryAnswerCanCome(s: Sys, t: Tid, pc: PC)
    requires t in s.pcs && s.pcs[t] == pc && pc.At?
    ensures pc.loc.AskShare? ==>
      && CanAt(s, t, pc.d, pc.loc, ShareAnswered(ShareError))
      && CanAt(s, t, pc.d, pc.loc, ShareAnswered(if pc.d in s.shares then ShareFound else ShareMissing))
    ensures pc.loc.Probing? ==>
      && CanAt(s, t, pc.d, pc.loc, Probe(Unanswered))
      && CanAt(s, t, pc.d, pc.loc, Probe(if pc.d in s.mounts then IsMounted else NotMounted))
    ensures pc.loc.Inspecting? ==>
      forall readable, addresses, fqdn, dns :: CanAt(s, t, pc.d, pc.loc, Inspect(readable, addresses, fqdn, dns))
    ensures pc.loc.ListingLoops? ==> forall answered :: CanAt(s, t, pc.d, pc.loc, SeeLoops(answered))
  {
  }

  lemma EveryMountCanEnd(s: Sys, t: Tid, pc: PC)
    requires t in s.pcs && s.pcs[t] == pc && pc.At?
    ensures pc.loc.Replacing? ==> forall detached, failed :: CanAt(s, t, pc.d, pc.loc, Replace(detached, failed))
    ensures pc.loc.Clearing? ==> forall detached :: CanAt(s, t, pc.d, pc.loc, Clear(detached))
    ensures pc.loc.WaitSlot? ==> CanAt(s, t, pc.d, pc.loc, SlotTimeout)
    ensures pc.loc.Mounting? ==>
      && CanAt(s, t, pc.d, pc.loc, MountEnds(MountOutcome.Fails))
      && (forall server :: CanAt(s, t, pc.d, pc.loc, MountEnds(Mounts(server))))
      && (pc.d in s.mounts ==> CanAt(s, t, pc.d, pc.loc, MountEnds(AlreadyThere)))
  {
  }

  lemma EveryReleaseCanEnd(s: Sys, t: Tid, pc: PC)
    requires t in s.pcs && s.pcs[t] == pc && pc.At?
    ensures pc.loc.LastRef? && s.mu != Some(t) ==> CanAt(s, t, pc.d, pc.loc, SkipUnmount(ShareUnknown))
    ensures (pc.loc.Unmounting? || pc.loc.DirectUnmounting?) && s.mu != Some(t) ==>
      && CanAt(s, t, pc.d, pc.loc, SkipUnmount(MountUnchecked)) && CanAt(s, t, pc.d, pc.loc, SkipUnmount(LoopsUnknown))
      && CanAt(s, t, pc.d, pc.loc, SkipUnmount(NothingMounted)) == (pc.d !in s.mounts)
      && CanAt(s, t, pc.d, pc.loc, SkipUnmount(LoopsInUse)) == (pc.d in s.loops)
    ensures pc.loc.Unmounting? ==> forall detached :: CanAt(s, t, pc.d, pc.loc, UnmountEnds(detached))
    ensures pc.loc.DirectUnmounting? ==> forall detached :: CanAt(s, t, pc.d, pc.loc, DirectUnmountEnds(detached))
  {
  }

  /** What a mount that worked leaves: the share, from the server it was mounted from. */
  lemma MountMounts(s: Sys, t: Tid, server: string)
    requires Enabled(s, Do(t, MountEnds(Mounts(server)))) && s.pcs[t].op != Stage
    ensures var s', d := Apply(s, Do(t, MountEnds(Mounts(server)))), s.pcs[t].d;
            d in s'.mounts && s'.mounts[d] == server
  {
  }

  /** The release took the count of its directory to zero. */
  ghost predicate TakesLast(v: Visit, t: Tid) {
    && t in v.s.pcs && v.s.pcs[t].At? && v.s.pcs[t].op == Release && v.k.CountRef?
    && v.s.pcs[t].d in v.s.refs && v.s.refs[v.s.pcs[t].d] == 1
  }

  /** The directory is unmounted, or there is a reason why not. */
  ghost predicate UnmountedOrWhy(v: Visit, t: Tid, d: Dir) {
    && Enabled(v.s, Do(t, v.k))
    && match v.k
       case UnmountEnds(detached) => detached ==> d !in Apply(v.s, Do(t, v.k)).mounts
       case SkipUnmount(why) => (why.NothingMounted? ==> d !in v.s.mounts) && (why.LoopsInUse? ==> d in v.s.loops)
       case _ => false
  }

  /**
   * A release that drops the last reference tries to unmount. It asks for the
   * share, and ends there only if that fails; it sees that nobody has taken a
   * reference meanwhile; and it ends with the directory unmounted, or because
   * the unmount did not detach it, a check had no answer, nothing was mounted,
   * or a loop device is under it.
   */
  lemma LastReleaseUnmounts(s0: Sys, acts: seq<Action>, s: Sys, t: Tid, i: nat)
    requires Init(s0) && Run(s0, acts, s) && i < |Visits(s0, acts, t)| && TakesLast(Visits(s0, acts, t)[i], t)
    ensures var h := Visits(s0, acts, t);
            && (i + 1 < |h| ==> h[i + 1].k.Recheck? || h[i + 1].k == SkipUnmount(ShareUnknown))
            && (i + 2 < |h| && h[i + 1].k.Recheck? ==> UnmountedOrWhy(h[i + 2], t, h[i].s.pcs[t].d))
  {
    RunBooks(s0, acts, s, t);
    ReleaseInBooks(s, t, Visits(s0, acts, t), i, i + 1, i + 2);
  }

  lemma ReleaseInBooks(s: Sys, t: Tid, h: seq<Visit>, i: nat, j: nat, n: nat)
    requires Books(s, t, h) && i + 1 == j && j + 1 == n && i < |h| && TakesLast(h[i], t)
    ensures j < |h| ==> h[j].k.Recheck? || h[j].k == SkipUnmount(ShareUnknown)
    ensures n < |h| && h[j].k.Recheck? ==> UnmountedOrWhy(h[n], t, h[i].s.pcs[t].d)
  {
    var d := h[i].s.pcs[t].d;
    if j < |h| {
      assert Taken(h[i], t);
      LastDropped(h[i], t);
      assert Taken(h[j], t) && Link(h[i], h[j], t);
      FromLastRef(h[j], t, d);
      if n < |h| && h[j].k.Recheck? {
        assert Inv(h[j].s);
        SeesNone(h[j], t, d);
        assert Taken(h[n], t) && Link(h[j], h[n], t);
        FromUnmounting(h[n], t, d);
      }
    }
  }

  lemma LastDropped(v: Visit, t: Tid)
    requires Taken(v, t) && TakesLast(v, t)
    ensures v.after == At(Release, v.s.pcs[t].d, LastRef)
  {
  }

  lemma FromLastRef(v: Visit, t: Tid, d: Dir)
    requires Taken(v, t) && v.s.pcs[t] == At(Release, d, LastRef)
    ensures v.k.Recheck? || v.k == SkipUnmount(ShareUnknown)
  {
  }

  lemma SeesNone(v: Visit, t: Tid, d: Dir)
    requires Taken(v, t) && RefInv(v.s) && SoloInv(v.s) && v.s.pcs[t] == At(Release, d, LastRef) && v.k.Recheck?
    ensures v.after == At(Release, d, Unmounting)
  {
    assert Sole(v.s.pcs[t]);
    assert Count(v.s.refs, d) == |Holders(v.s, d)|;
  }

  lemma FromUnmounting(v: Visit, t: Tid, d: Dir)
    requires Taken(v, t) && v.s.pcs[t] == At(Release, d, Unmounting)
    ensures UnmountedOrWhy(v, t, d)
  {
  }
}
