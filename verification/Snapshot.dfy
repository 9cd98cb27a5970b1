/**
 * Concurrent CreateSnapshot calls in one process (pkg/driver/controller.go;
 * the per-name lock is in pkg/driver/driver.go). Every step of every call may
 * interleave with every other; lock waits may time out and every answer of
 * Anvil and of the pods is open.
 */
module Snapshot {
  import opened Wrappers
  import opened Freezer

  type Tid = nat

  const MAX_NAME_LENGTH := 128

  /** What is cached and returned; the snapshot ID joins Anvil's name and the source (see VolumeIds). */
  datatype Snap = Snap(hsName: string, source: string)

  datatype Reply = Invalid | Aborted | Internal | AlreadyExists | Ok(snap: Snap)

  datatype Loc =
    | Waiting                                            // for the lock of its name
    | Entered                                            // about to look in the cache
    | Deciding                                           // file or share behind the source?
    | Freezing(todo: seq<Target>, frozen: seq<Target>)
    | Made(frozen: seq<Target>, made: Snap)              // Anvil has the snapshot, the cache not yet
    | Leaving(frozen: seq<Target>, reply: Reply)         // the deferred thaw, then the deferred unlock
    | Done(result: Reply)

  /** What a call has been told so far: the answers it got, in the order it asks. */
  datatype Told = Told(
    timedOut: bool,
    saw: Option<Option<Snap>>,                           // what was in the cache for its name
    decided: Option<(Option<bool>, seq<Target>)>,        // file or share (or GetShare failed), and the mounts found
    took: Option<Option<string>>)                        // what the backend call returned

  datatype Call = Call(name: string, source: string, loc: Loc, events: seq<Event>, told: Told)

  const NOTHING := Told(false, None, None, None)

  datatype Sys = Sys(
    calls: map<Tid, Call>,
    locks: map<string, Tid>,                             // the holders of the per-name locks
    cache: map<string, Snap>,                            // recentlyCreatedSnapshots
    taken: seq<(string, Snap)>)                          // every success of a backend call, with its snapshot name

  datatype Step =
    | TimeOut
    | Enter
    | LookUp
    | Decide(fileBacked: Option<bool>, targets: seq<Target>)  // None: GetShare failed
    | FreezeNext(works: bool)
    | Snapshot(hsName: Option<string>)                        // None: the backend call failed
    | Remember
    | ThawNext
    | Leave

  datatype Action = Start(t: Tid, name: string, source: string) | Do(t: Tid, k: Step)

  predicate Holds(loc: Loc) {
    !loc.Waiting? && !loc.Done?
  }

  predicate Can(s: Sys, c: Call, k: Step) {
    match k
    case TimeOut => c.loc.Waiting?
    case Enter => c.loc.Waiting? && c.name !in s.locks
    case LookUp => c.loc.Entered?
    case Decide(_, _) => c.loc.Deciding?
    case FreezeNext(_) => c.loc.Freezing? && c.loc.todo != []
    case Snapshot(_) => c.loc.Freezing? && c.loc.todo == []
    case Remember => c.loc.Made?
    case ThawNext => c.loc.Leaving? && c.loc.frozen != []
    case Leave => c.loc.Leaving? && c.loc.frozen == []
  }

  function LocAfter(s: Sys, c: Call, k: Step): Loc
    requires Can(s, c, k)
  {
    match k
    case TimeOut => Done(Aborted)
    case Enter => Entered
    case LookUp =>
      if c.name !in s.cache then Deciding
      else Leaving([], if s.cache[c.name].source != c.source then AlreadyExists else Ok(s.cache[c.name]))
    case Decide(fileBacked, targets) =>
      if fileBacked.None? then Leaving([], Internal) else Freezing(if fileBacked.value then targets else [], [])
    case FreezeNext(works) => Freezing(c.loc.todo[1..], c.loc.frozen + if works then [c.loc.todo[0]] else [])
    case Snapshot(hsName) =>
      if hsName.None? then Leaving(c.loc.frozen, Internal) else Made(c.loc.frozen, Snap(hsName.value, c.source))
    case Remember => Leaving(c.loc.frozen, Ok(c.loc.made))
    case ThawNext => Leaving(c.loc.frozen[..|c.loc.frozen| - 1], c.loc.reply)
    case Leave => Done(c.loc.reply)
  }

  function EventsAfter(s: Sys, c: Call, k: Step): seq<Event>
    requires Can(s, c, k)
  {
    match k
    case FreezeNext(works) => c.events + [Freeze(c.loc.todo[0], works)]
    case Snapshot(hsName) => c.events + [Take(hsName.Some?)]
    case ThawNext => c.events + [Thaw(c.loc.frozen[|c.loc.frozen| - 1])]
    case _ => c.events
  }

  function ToldAfter(s: Sys, c: Call, k: Step): Told {
    match k
    case TimeOut => c.told.(timedOut := true)
    case LookUp => c.told.(saw := Some(if c.name in s.cache then Some(s.cache[c.name]) else None))
    case Decide(fileBacked, targets) => c.told.(decided := Some((fileBacked, targets)))
    case Snapshot(hsName) => c.told.(took := Some(hsName))
    case _ => c.told
  }

  predicate Enabled(s: Sys, a: Action) {
    match a
    case Start(t, _, _) => t !in s.calls
    case Do(t, k) => t in s.calls && Can(s, s.calls[t], k)
  }

  function Apply(s: Sys, a: Action): Sys
    requires Enabled(s, a)
  {
    match a
    case Start(t, name, source) =>
      var valid := 0 < |name| <= MAX_NAME_LENGTH && source != "";
      s.(calls := s.calls[t := Call(name, source, if valid then Waiting else Done(Invalid), [], NOTHING)])
    case Do(t, k) =>
      var c := s.calls[t];
      Sys(s.calls[t := Call(c.name, c.source, LocAfter(s, c, k), EventsAfter(s, c, k), ToldAfter(s, c, k))],
          if k.Enter? then s.locks[c.name := t] else if k.Leave? then s.locks - {c.name} else s.locks,
          if k.Remember? then s.cache[c.name := c.loc.made] else s.cache,
          if k.Snapshot? && k.hsName.Some? then s.taken + [(c.name, Snap(k.hsName.value, c.source))] else s.taken)
  }

  const INIT := Sys(map[], map[], map[], [])

  /** The state after a run; an action that is not possible when its turn comes is skipped. */
  function After(actions: seq<Action>): Sys {
    if actions == [] then INIT
    else
      var before := After(actions[..|actions| - 1]);
      if Enabled(before, actions[|actions| - 1]) then Apply(before, actions[|actions| - 1]) else before
  }

  // -------------------------------------------------------------- invariant

  /** The lock of a name has exactly the holders that stand behind it. */
  ghost predicate LockInv(s: Sys) {
    && (forall t :: t in s.calls && Holds(s.calls[t].loc) ==>
          s.calls[t].name in s.locks && s.locks[s.calls[t].name] == t)
    && (forall n :: n in s.locks ==>
          s.locks[n] in s.calls && s.calls[s.locks[n]].name == n && Holds(s.calls[s.locks[n]].loc))
  }

  ghost predicate Taken(s: Sys, name: string) {
    exists i :: 0 <= i < |s.taken| && s.taken[i].0 == name
  }

  /** What a reply of a call claims is so. */
  ghost predicate ReplyInv(s: Sys, c: Call, r: Reply) {
    match r
    case Ok(snap) => c.name in s.cache && s.cache[c.name] == snap && snap.source == c.source
    case AlreadyExists => c.name in s.cache && s.cache[c.name].source != c.source
    case _ => true
  }

  ghost predicate CallInv(s: Sys, c: Call) {
    match c.loc
    case Waiting => true
    case Entered => true
    case Deciding => c.name !in s.cache
    case Freezing(_, _) => c.name !in s.cache
    case Made(_, snap) => c.name !in s.cache && (c.name, snap) in s.taken && snap.source == c.source
    case Leaving(_, reply) => ReplyInv(s, c, reply)
    case Done(reply) => ReplyInv(s, c, reply)
  }

  /** A success is remembered, or about to be by the holder of the lock. */
  ghost predicate TakenInv(s: Sys) {
    && (forall i, j :: 0 <= i < j < |s.taken| ==> s.taken[i].0 != s.taken[j].0)
    && (forall i :: 0 <= i < |s.taken| ==>
          var (n, snap) := s.taken[i];
          if n in s.cache then s.cache[n] == snap
          else
            && n in s.locks && s.locks[n] in s.calls
            && s.calls[s.locks[n]].loc.Made? && s.calls[s.locks[n]].loc.made == snap)
    && (forall n :: n in s.cache ==> (n, s.cache[n]) in s.taken)
  }

  /** Freeze attempts, then the backend call, then thaw attempts. */
  ghost predicate Bracketed(events: seq<Event>, left: seq<Target>) {
    exists n: nat :: Bracket(events, left, n)
  }

  ghost predicate Bracket(events: seq<Event>, left: seq<Target>, n: nat) {
    && n < |events| && (forall i :: 0 <= i < n ==> events[i].Freeze?) && events[n].Take?
    && events[n + 1..] + Thaws(left) == Thaws(Frozen(events[..n]))
  }

  ghost predicate EventInv(c: Call) {
    match c.loc
    case Freezing(_, frozen) => (forall i :: 0 <= i < |c.events| ==> c.events[i].Freeze?) && frozen == Frozen(c.events)
    case Made(frozen, _) => Bracketed(c.events, frozen)
    case Leaving(frozen, _) => if c.events == [] then frozen == [] else Bracketed(c.events, frozen)
    case Done(_) => c.events == [] || Bracketed(c.events, [])
    case _ => c.events == []
  }

  ghost predicate Inv(s: Sys) {
    LockInv(s) && TakenInv(s) && forall t :: t in s.calls ==> CallInv(s, s.calls[t]) && EventInv(s.calls[t])
  }

  lemma {:induction false} StartKeeps(s: Sys, a: Action)
    requires Inv(s) && a.Start? && Enabled(s, a)
    ensures Inv(Apply(s, a))
  {
    var s' := Apply(s, a);
    assert LockInv(s') && TakenInv(s');
  }

  lemma DoKeepsLocks(s: Sys, t: Tid, k: Step)
    requires LockInv(s) && Enabled(s, Do(t, k))
    ensures LockInv(Apply(s, Do(t, k)))
  {
  }

  /** Two holders of one lock are one. */
  lemma OneHolder(s: Sys, t: Tid, u: Tid)
    requires LockInv(s) && t in s.calls && u in s.calls && Holds(s.calls[t].loc) && Holds(s.calls[u].loc) &&
      s.calls[t].name == s.calls[u].name
    ensures t == u
  {
  }

  lemma NotTaken(s: Sys, t: Tid)
    requires Inv(s) && t in s.calls && s.calls[t].loc.Freezing?
    ensures !Taken(s, s.calls[t].name)
  {
  }

  /** Only the holder at Made stands for an entry that is not cached; it may not move away from it. */
  lemma QuietKeepsTaken(s: Sys, t: Tid, s': Sys)
    requires TakenInv(s) && t in s.calls && t in s'.calls && !s.calls[t].loc.Made?
    requires s'.cache == s.cache && s'.taken == s.taken && s'.calls == s.calls[t := s'.calls[t]]
    requires forall n :: n in s.locks && s.locks[n] != t ==> n in s'.locks && s'.locks[n] == s.locks[n]
    ensures TakenInv(s')
  {
  }

  /** A fresh success of the holder, for a name that has none. */
  lemma SuccessKeepsTaken(s: Sys, t: Tid, s': Sys, snap: Snap)
    requires TakenInv(s) && t in s.calls && t in s'.calls && s.calls[t].name in s.locks && s.locks[s.calls[t].name] == t
    requires !Taken(s, s.calls[t].name) && s.calls[t].name !in s.cache && !s.calls[t].loc.Made?
    requires s'.cache == s.cache && s'.locks == s.locks && s'.taken == s.taken + [(s.calls[t].name, snap)]
    requires s'.calls == s.calls[t := s'.calls[t]] && s'.calls[t].loc.Made? && s'.calls[t].loc.made == snap
    ensures TakenInv(s')
  {
  }

  /** The holder at Made writes its success down. */
  lemma RememberKeepsTaken(s: Sys, t: Tid, s': Sys)
    requires LockInv(s) && TakenInv(s) && t in s.calls && t in s'.calls && s.calls[t].loc.Made?
    requires s.calls[t].name !in s.cache && (s.calls[t].name, s.calls[t].loc.made) in s.taken
    requires s'.locks == s.locks && s'.taken == s.taken && s'.calls == s.calls[t := s'.calls[t]]
    requires s'.cache == s.cache[s.calls[t].name := s.calls[t].loc.made]
    ensures TakenInv(s')
  {
  }

  lemma DoKeepsTaken(s: Sys, t: Tid, k: Step)
    requires Inv(s) && Enabled(s, Do(t, k))
    ensures TakenInv(Apply(s, Do(t, k)))
  {
    var s' := Apply(s, Do(t, k));
    if k.Snapshot? && k.hsName.Some? {
      NotTaken(s, t);
      assert CallInv(s, s.calls[t]);
      SuccessKeepsTaken(s, t, s', Snap(k.hsName.value, s.calls[t].source));
    } else if k.Remember? {
      assert CallInv(s, s.calls[t]);
      RememberKeepsTaken(s, t, s');
    } else {
      QuietKeepsTaken(s, t, s');
    }
  }

  lemma DoKeepsCall(s: Sys, t: Tid, k: Step, u: Tid)
    requires Inv(s) && Enabled(s, Do(t, k)) && u in s.calls
    ensures CallInv(Apply(s, Do(t, k)), Apply(s, Do(t, k)).calls[u])
  {
    if t != u && k.Remember? && Holds(s.calls[u].loc) && s.calls[t].name == s.calls[u].name {
      OneHolder(s, t, u);
    }
  }

  lemma TakeOpensBracket(events: seq<Event>, ok: bool)
    requires forall i :: 0 <= i < |events| ==> events[i].Freeze?
    ensures Bracketed(events + [Take(ok)], Frozen(events))
  {
    var events', n, thaws := events + [Take(ok)], |events|, Thaws(Frozen(events));
    assert events'[..n] == events && events'[n + 1..] == [] && [] + thaws == thaws;
    assert events'[n + 1..] + thaws == Thaws(Frozen(events'[..n]));
    assert forall i :: 0 <= i < n ==> events'[i] == events[i];
    assert Bracket(events', Frozen(events), n);
  }

  lemma AppendInside(events: seq<Event>, more: seq<Event>, n: nat)
    requires n < |events|
    ensures (events + more)[..n] == events[..n] && (events + more)[n] == events[n] &&
      (events + more)[n + 1..] == events[n + 1..] + more
  {
  }

  lemma ThawKeepsBracket(events: seq<Event>, left: seq<Target>)
    requires Bracketed(events, left) && left != []
    ensures Bracketed(events + [Thaw(left[|left| - 1])], left[..|left| - 1])
  {
    var thaw := [Thaw(left[|left| - 1])];
    var n: nat :| Bracket(events, left, n);
    var rest := left[..|left| - 1];
    AppendInside(events, thaw, n);
    assert Thaws(left) == thaw + Thaws(rest);
    assert (events[n + 1..] + thaw) + Thaws(rest) == events[n + 1..] + (thaw + Thaws(rest));
    assert Bracket(events + thaw, rest, n);
  }

  lemma DoKeepsEvents(s: Sys, c: Call, k: Step)
    requires EventInv(c) && Can(s, c, k)
    ensures EventInv(Call(c.name, c.source, LocAfter(s, c, k), EventsAfter(s, c, k), ToldAfter(s, c, k)))
  {
    match k
    case FreezeNext(works) =>
      assert EventsAfter(s, c, k)[..|c.events|] == c.events;
    case Snapshot(hsName) => TakeOpensBracket(c.events, hsName.Some?);
    case ThawNext => ThawKeepsBracket(c.events, c.loc.frozen);
    case _ =>
  }

  lemma {:induction false} Always(actions: seq<Action>)
    ensures Inv(After(actions))
  {
    if actions != [] {
      var before := After(actions[..|actions| - 1]);
      Always(actions[..|actions| - 1]);
      match actions[|actions| - 1]
      case Start(t, name, source) =>
        if Enabled(before, Start(t, name, source)) { StartKeeps(before, Start(t, name, source)); }
      case Do(t, k) =>
        if Enabled(before, Do(t, k)) {
          DoKeepsLocks(before, t, k);
          DoKeepsTaken(before, t, k);
          DoKeepsEvents(before, before.calls[t], k);
          forall u | u in before.calls ensures CallInv(After(actions), After(actions).calls[u]) {
            DoKeepsCall(before, t, k, u);
          }
        }
    }
  }

  // --------------------------------------------------------- the whole call

  /** What the call has to answer, given what it has been told. */
  function Expected(c: Call): Reply {
    if c.name == "" || |c.name| > 128 || c.source == "" then Invalid
    else if c.told.timedOut then Aborted
    else if c.told.saw.Some? && c.told.saw.value.Some? then
      var cached := c.told.saw.value.value;
      if cached.source == c.source then Ok(cached) else AlreadyExists
    else if c.told.took.Some? && c.told.took.value.Some? then Ok(Snap(c.told.took.value.value, c.source))
    else Internal
  }

  /** The targets it has to freeze: the mounts of a file-backed source. */
  function Wanted(told: Told): seq<Target> {
    if told.decided.Some? && told.decided.value.0 == Some(true) then told.decided.value.1 else []
  }

  /** The first n events are attempts to freeze the first n of the targets. */
  ghost predicate Attempts(events: seq<Event>, targets: seq<Target>, n: nat) {
    n <= |events| && n <= |targets| && forall i :: 0 <= i < n ==> events[i].Freeze? && events[i].target == targets[i]
  }

  /** It froze what it had to, and called the backend once. */
  ghost predicate AllAttempted(c: Call) {
    var w := Wanted(c.told);
    && c.told.took.Some? && Attempts(c.events, w, |w|)
    && |c.events| > |w| && c.events[|w|] == Take(c.told.took.value.Some?)
  }

  ghost predicate Valid(c: Call) {
    0 < |c.name| <= 128 && c.source != ""
  }

  ghost predicate Missed(told: Told) {
    !told.timedOut && told.saw == Some(None)
  }

  /** How far a finished or finishing call got: to the backend, or not past a failure before it. */
  ghost predicate Finishes(c: Call, reply: Reply) {
    && reply == Expected(c)
    && (if c.told.took.Some? then
          Missed(c.told) && c.told.decided.Some? && c.told.decided.value.0.Some? && AllAttempted(c)
        else
          && c.events == []
          && (if c.told.decided.Some? then Missed(c.told) && c.told.decided.value.0.None?
              else !Valid(c) || c.told.timedOut || (c.told.saw.Some? && c.told.saw.value.Some?)))
  }

  ghost predicate Story(c: Call) {
    match c.loc
    case Waiting => Valid(c) && c.told == NOTHING
    case Entered => Valid(c) && c.told == NOTHING
    case Deciding => Valid(c) && c.told == NOTHING.(saw := Some(None))
    case Freezing(todo, _) =>
      && Valid(c) && Missed(c.told) && c.told.took.None? && c.told.decided.Some? && c.told.decided.value.0.Some?
      && Attempts(c.events, Wanted(c.told), |c.events|) && todo == Wanted(c.told)[|c.events|..]
    case Made(_, made) => Valid(c) && Finishes(c, Ok(made))
    case Leaving(_, reply) => Valid(c) && Finishes(c, reply)
    case Done(reply) => Finishes(c, reply)
  }

  lemma AttemptsStay(events: seq<Event>, e: Event, targets: seq<Target>, n: nat)
    requires Attempts(events, targets, n)
    ensures Attempts(events + [e], targets, n)
  {
    assert forall i :: 0 <= i < n ==> (events + [e])[i] == events[i];
  }

  lemma DoKeepsStory(s: Sys, c: Call, k: Step)
    requires Story(c) && EventInv(c) && Can(s, c, k)
    ensures Story(Call(c.name, c.source, LocAfter(s, c, k), EventsAfter(s, c, k), ToldAfter(s, c, k)))
  {
    match k
    case FreezeNext(works) =>
      AttemptsStay(c.events, Freeze(c.loc.todo[0], works), Wanted(c.told), |c.events|);
    case Snapshot(hsName) =>
      AttemptsStay(c.events, Take(hsName.Some?), Wanted(c.told), |c.events|);
    case ThawNext =>
      if c.told.took.Some? {
        AttemptsStay(c.events, Thaw(c.loc.frozen[|c.loc.frozen| - 1]), Wanted(c.told), |Wanted(c.told)|);
      }
    case _ =>
  }

  lemma {:induction false} StoriesHold(actions: seq<Action>)
    ensures forall t :: t in After(actions).calls ==> Story(After(actions).calls[t])
  {
    if actions != [] {
      var before, a := After(actions[..|actions| - 1]), actions[|actions| - 1];
      StoriesHold(actions[..|actions| - 1]);
      Always(actions[..|actions| - 1]);
      if a.Do? && Enabled(before, a) {
        DoKeepsStory(before, before.calls[a.t], a.k);
      }
    }
  }

  // --------------------------------------------------------------- theorems

  /** In every run, at most one backend call has succeeded for a snapshot name. */
  lemma AtMostOneSnapshotPerName(actions: seq<Action>, i: nat, j: nat)
    requires i < |After(actions).taken| && j < |After(actions).taken| &&
      After(actions).taken[i].0 == After(actions).taken[j].0
    ensures i == j
  {
    Always(actions);
  }

  /**
   * All calls that succeeded for a name returned one snapshot, the one Anvil
   * took, of the source each of them asked for.
   */
  lemma RepliesAgree(actions: seq<Action>, t: Tid, u: Tid)
    requires var s := After(actions); t in s.calls && u in s.calls && s.calls[t].name == s.calls[u].name
    requires var s := After(actions);
             s.calls[t].loc.Done? && s.calls[t].loc.result.Ok? && s.calls[u].loc.Done? && s.calls[u].loc.result.Ok?
    ensures var s := After(actions);
            && s.calls[t].loc == s.calls[u].loc
            && s.calls[t].source == s.calls[u].source == s.calls[t].loc.result.snap.source
            && (s.calls[t].name, s.calls[t].loc.result.snap) in s.taken
  {
    Always(actions);
  }

  /** A call is refused as AlreadyExists only when the name was snapshotted for another source. */
  lemma ConflictIsReal(actions: seq<Action>, t: Tid)
    requires var s := After(actions); t in s.calls && s.calls[t].loc == Done(AlreadyExists)
    ensures var s := After(actions);
            exists i :: 0 <= i < |s.taken| && s.taken[i].0 == s.calls[t].name &&
              s.taken[i].1.source != s.calls[t].source
  {
    Always(actions);
    var s := After(actions);
    var n := s.calls[t].name;
    assert (n, s.cache[n]) in s.taken;
    var i :| 0 <= i < |s.taken| && s.taken[i] == (n, s.cache[n]);
  }

  /**
   * Every finished call answers what it has to: Invalid, Aborted, the cached
   * snapshot or AlreadyExists, Internal after a failure of GetShare or of the
   * backend, and otherwise the snapshot just taken. If it got past the cache
   * and GetShare, it attempted to freeze every mount of a file-backed source,
   * in order, and then called the backend once; if not, it touched nothing.
   */
  lemma CallsAnswer(actions: seq<Action>, t: Tid)
    requires var s := After(actions); t in s.calls && s.calls[t].loc.Done?
    ensures var c := After(actions).calls[t];
            && c.loc.result == Expected(c)
            && (c.events != [] <==> c.told.took.Some?)
            && (c.told.took.Some? ==> AllAttempted(c))
            && (c.told.took.None? && c.loc.result == Internal ==> c.told.decided.Some? && c.told.decided.value.0.None?)
  {
    StoriesHold(actions);
    StoryOfDone(After(actions).calls[t]);
  }

  lemma StoryOfDone(c: Call)
    requires Story(c) && c.loc.Done?
    ensures c.events != [] <==> c.told.took.Some?
  {
  }

  /**
   * Event n is the backend call; the thaws after it mirror the freezes before
   * it that worked, and there are no others.
   */
  ghost predicate Mirrors(e: seq<Event>, n: nat) {
    && n < |e| && (forall i :: 0 <= i < n ==> e[i].Freeze?) && e[n].Take?
    && |e| == n + 1 + Worked(e, n) && (forall i :: n < i < |e| ==> e[i].Thaw?)
    && (forall i, x :: 0 <= i < n && e[i] == Freeze(x, true) ==>
          n < |e| - 1 - Worked(e, i) && e[|e| - 1 - Worked(e, i)] == Thaw(x))
  }

  /**
   * A finished call has either done nothing to any pod, or has made its freeze
   * attempts, then its one backend call, and then for each freeze that worked
   * a thaw attempt, in mirrored order, and no other: whichever way it ended.
   */
  lemma EveryFreezeIsThawed(actions: seq<Action>, t: Tid)
    requires var s := After(actions); t in s.calls && s.calls[t].loc.Done? && s.calls[t].events != []
    ensures exists n: nat :: Mirrors(After(actions).calls[t].events, n)
  {
    Always(actions);
    var e := After(actions).calls[t].events;
    var n: nat :| Bracket(e, [], n);
    BracketMirrors(e, n);
  }

  lemma BracketMirrors(e: seq<Event>, n: nat)
    requires Bracket(e, [], n)
    ensures Mirrors(e, n)
  {
    var frozen, thaws := Frozen(e[..n]), e[n + 1..];
    assert thaws + Thaws([]) == thaws;
    assert thaws == Thaws(frozen);
    FrozenInOrder(e, n);
    if frozen != [] { ThawsReverse(frozen, 0); }
    forall i | n < i < |e| ensures e[i].Thaw? {
      ThawsReverse(frozen, i - n - 1);
      assert e[i] == thaws[i - n - 1];
    }
    forall i, x | 0 <= i < n && e[i] == Freeze(x, true)
      ensures n < |e| - 1 - Worked(e, i) && e[|e| - 1 - Worked(e, i)] == Thaw(x)
    {
      var m := |frozen| - 1 - Worked(e, i);
      ThawsReverse(frozen, m);
      assert e[n + 1 + m] == thaws[m];
    }
  }

  /** No two calls of a name are ever past its lock together, whatever lock waits time out. */
  lemma NamesAreSerialized(actions: seq<Action>, t: Tid, u: Tid)
    requires var s := After(actions); t in s.calls && u in s.calls && s.calls[t].name == s.calls[u].name
    requires var s := After(actions); Holds(s.calls[t].loc) && Holds(s.calls[u].loc)
    ensures t == u
  {
    Always(actions);
  }
}
