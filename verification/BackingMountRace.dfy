/**
 * The one way a reference holder loses its mount without any probe failing:
 * a concrete run of the backing-mount protocol.
 */
module BackingMountRace {
  import opened Wrappers
  import opened ForeignMount
  import opened BackingRefs
  import opened BackingMount

  lemma {:induction false} Then(s0: Sys, acts: seq<Action>, s: Sys, a: Action, s': Sys)
    requires Run(s0, acts, s) && Enabled(s, a) && Apply(s, a) == s'
    ensures Run(s0, acts + [a], s')
    decreases |acts|
  {
    if acts == [] {
      assert [a][1..] == [];
      assert acts + [a] == [a];
    } else {
      assert (acts + [a])[0] == acts[0] && (acts + [a])[1..] == acts[1..] + [a];
      Then(Apply(s0, acts[0]), acts[1..], s, a, s');
    }
  }

  const PORTAL: map<Dir, string> := map[0 := "portal"]

  /** A fresh process on a host where share 0 is known and mounted. */
  const START := Sys(map[], map[], map[], None, {}, 1, PORTAL, {0}, {}, {})

  ghost predicate Reaches(s: Sys) {
    exists acts :: Run(START, acts, s)
  }

  lemma Next(s: Sys, a: Action, s': Sys)
    requires Reaches(s) && Enabled(s, a) && Apply(s, a) == s'
    ensures Reaches(s')
  {
    var acts :| Run(START, acts, s);
    Then(START, acts, s, a, s');
  }

  /** The same host with two goroutines at work; nobody has asked for the lock of the directory yet. */
  function Early(one: PC, two: PC, mu: Option<Tid>): Sys {
    Sys(map[1 := one, 2 := two], map[], map[], mu, {}, 1, PORTAL, {0}, {}, {})
  }

  /** Goroutine 1 has seen no reference and is about to unmount, while goroutine 2 acquires. */
  function Late(two: Loc, refs: Refs, lock: Option<Tid>, mu: Option<Tid>): Sys {
    Sys(map[1 := At(Direct, 0, DirectUnmounting), 2 := At(Acquire, 0, two)], refs, map[0 := lock], mu, {}, 1, PORTAL,
        {0}, {}, {})
  }

  /** The one reference of goroutine 2. */
  const ONE: Refs := map[0 := 1]

  lemma RaceStarts()
    ensures Reaches(Early(Idle, Idle, None))
  {
    assert Run(START, [], START);
    Next(START, Spawn(1), START.(pcs := map[1 := Idle]));
    Next(START.(pcs := map[1 := Idle]), Spawn(2), Early(Idle, Idle, None));
  }

  lemma RaceChecks()
    ensures Reaches(Early(At(Direct, 0, DirectCheck), Idle, Some(1)))
  {
    RaceStarts();
    var check := At(Direct, 0, DirectCheck);
    Next(Early(Idle, Idle, None), Do(1, Begin(Direct, 0)), Early(check, Idle, None));
    Next(Early(check, Idle, None), Do(1, TakeMu), Early(check, Idle, Some(1)));
  }

  lemma RaceEnters()
    ensures Reaches(Early(At(Direct, 0, DirectUnmounting), At(Acquire, 0, FindLock), None))
  {
    RaceChecks();
    var about := At(Direct, 0, DirectUnmounting);
    Next(Early(At(Direct, 0, DirectCheck), Idle, Some(1)), Do(1, SeeDirect), Early(about, Idle, None));
    Next(Early(about, Idle, None), Do(2, Begin(Acquire, 0)), Early(about, At(Acquire, 0, FindLock), None));
  }

  lemma RaceFinds()
    ensures Reaches(Early(At(Direct, 0, DirectUnmounting), At(Acquire, 0, FindLock), Some(2)))
  {
    RaceEnters();
    var s := Early(At(Direct, 0, DirectUnmounting), At(Acquire, 0, FindLock), None);
    Next(s, Do(2, TakeMu), s.(mu := Some(2)));
  }

  lemma RaceWaits()
    ensures Reaches(Late(WaitLock, map[], None, None))
  {
    RaceFinds();
    Next(Early(At(Direct, 0, DirectUnmounting), At(Acquire, 0, FindLock), Some(2)), Do(2, LockFound),
        Late(WaitLock, map[], None, None));
  }

  /** What steps of goroutine 2 change once the lock is there. */
  lemma LateStep(two: Loc, refs: Refs, lock: Option<Tid>, mu: Option<Tid>, k: Step, s': Sys)
    requires Reaches(Late(two, refs, lock, mu)) && CanAt(Late(two, refs, lock, mu), 2, 0, two, k)
    requires var s, pc := Late(two, refs, lock, mu), At(Acquire, 0, two);
             && s'.pcs == s.pcs[2 := PcAfter(s, 2, pc, k)] && s'.refs == RefsAfter(s, pc, k) &&
                s'.locks == LocksAfter(s, 2, pc, k)
             && s'.mu == MuAfter(s, 2, k) && s'.slots == SlotsAfter(s, 2, k) && s'.cap == 1
             && s'.mounts == MountsAfter(s, pc, k) && s'.shares == {0} && s'.loops == {} &&
                s'.lost == LostAfter(s, pc, k)
    ensures Reaches(s')
  {
    Next(Late(two, refs, lock, mu), Do(2, k), s');
  }

  lemma RaceLocks()
    ensures Reaches(Late(Enter, map[], Some(2), None))
  {
    RaceWaits();
    LateStep(WaitLock, map[], None, None, TakeLock, Late(Enter, map[], Some(2), None));
  }

  lemma RaceCounts()
    ensures Reaches(Late(AskShare, ONE, Some(2), None))
  {
    RaceLocks();
    LateStep(Enter, map[], Some(2), None, TakeMu, Late(Enter, map[], Some(2), Some(2)));
    LateStep(Enter, map[], Some(2), Some(2), CountRef, Late(AskShare, ONE, Some(2), None));
  }

  lemma RaceAsks()
    ensures Reaches(Late(Inspecting, ONE, Some(2), None))
  {
    RaceCounts();
    LateStep(AskShare, ONE, Some(2), None, ShareAnswered(ShareFound), Late(Probing(0), ONE, Some(2), None));
    LateStep(Probing(0), ONE, Some(2), None, Probe(IsMounted), Late(Inspecting, ONE, Some(2), None));
  }

  lemma RaceHolds()
    ensures Reaches(Late(Holding, ONE, None, None))
  {
    RaceAsks();
    var k := Inspect(true, None, "", Resolver(map[], map[]));
    LateStep(Inspecting, ONE, Some(2), None, k, Late(Leaving(true), ONE, Some(2), None));
    LateStep(Leaving(true), ONE, Some(2), None, Unlock, Late(Holding, ONE, None, None));
  }

  /**
   * UnmountBackingShareIfUnused called without the mount lock can pass its
   * check, see an acquire succeed on the mount it is about to take down, and
   * take it down: the acquirer holds its reference and has no mount, though
   * the share is known and no probe ever failed.
   */
  lemma DirectUnmountRace() returns (s0: Sys, acts: seq<Action>, s: Sys)
    ensures Init(s0) && Run(s0, acts, s)
    ensures 2 in s.pcs && s.pcs[2] == At(Acquire, 0, Holding) && 0 in s.shares && 0 !in s.mounts && 0 in s.lost
  {
    RaceHolds();
    var w := Late(Holding, ONE, None, None);
    s0, s := START, Apply(w, Do(1, DirectUnmountEnds(true)));
    Next(w, Do(1, DirectUnmountEnds(true)), s);
    acts :| Run(START, acts, s);
  }
}
