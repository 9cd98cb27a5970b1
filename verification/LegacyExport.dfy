/**
 * Releasing the node-wide root export that older driver versions mounted, one
 * marker per volume (pkg/driver/node.go, releaseLegacyRootExport; the lock is
 * in pkg/driver/driver.go). Any number of unstages interleave. This driver
 * writes no markers and does not mount the export again.
 */
module LegacyExport {
  import opened Wrappers
  import opened Unmounting

  type Tid = nat
  type Volume = string

  datatype Loc =
    | Looking                      // os.Stat of the marker
    | Waiting                      // for the root mount lock
    | Removing
    | Checking
    | Unmounting
    | Leaving(ok: bool)
    | Done(success: bool)

  /** `trace` are the steps it took; `left` is whether it saw a marker remain. */
  datatype Call = Call(volume: Volume, loc: Loc, unmount: Option<Unmount>, trace: seq<Step>, left: Option<bool>)

  datatype Sys = Sys(
    calls: map<Tid, Call>,
    lock: Option<Tid>,
    markers: set<Volume>,
    mounted: bool,                 // the root export
    emptied: Option<Tid>,          // history: the call that removed the last marker
    blind: bool)                   // history: some call could not read the marker directory

  datatype Step =
    | Look(answered: bool)
    | TimeOut
    | Enter
    | Remove(fails: bool)
    | Check(readable: bool)
    | End(how: Unmount)
    | Leave

  datatype Action = Start(t: Tid, volume: Volume) | Do(t: Tid, k: Step)

  predicate Holds(loc: Loc) {
    loc.Removing? || loc.Checking? || loc.Unmounting? || loc.Leaving?
  }

  predicate Can(s: Sys, c: Call, k: Step) {
    match k
    case Look(_) => c.loc.Looking?
    case TimeOut => c.loc.Waiting?
    case Enter => c.loc.Waiting? && s.lock.None?
    case Remove(_) => c.loc.Removing?
    case Check(_) => c.loc.Checking?
    case End(how) => c.loc.Unmounting? && (how.NothingThere? ==> !s.mounted) && (!how.Skips() ==> s.mounted)
    case Leave => c.loc.Leaving?
  }

  function LocAfter(s: Sys, c: Call, k: Step): Loc
    requires Can(s, c, k)
  {
    match k
    case Look(answered) => if answered && c.volume !in s.markers then Done(true) else Waiting
    case TimeOut => Done(false)
    case Enter => Removing
    case Remove(fails) => if fails then Leaving(false) else Checking
    case Check(readable) => if readable && s.markers != {} then Leaving(true) else Unmounting
    case End(how) => Leaving(how.Ok())
    case Leave => Done(c.loc.ok)
  }

  predicate Enabled(s: Sys, a: Action) {
    match a
    case Start(t, _) => t !in s.calls
    case Do(t, k) => t in s.calls && Can(s, s.calls[t], k)
  }

  function Apply(s: Sys, a: Action): Sys
    requires Enabled(s, a)
  {
    match a
    case Start(t, v) => s.(calls := s.calls[t := Call(v, Looking, None, [], None)])
    case Do(t, k) =>
      var c := s.calls[t];
      var left := if k == Remove(false) then s.markers - {c.volume} else s.markers;
      Sys(s.calls[t := Call(c.volume, LocAfter(s, c, k), if k.End? then Some(k.how) else c.unmount, c.trace + [k],
                         if k.Check? then Some(k.readable && s.markers != {}) else c.left)],
          if k.Enter? then Some(t) else if k.Leave? then None else s.lock,
          left,
          s.mounted && !(k.End? && k.how.Gone()),
          if s.markers != {} && left == {} then Some(t) else s.emptied,
          s.blind || (k.Check? && !k.readable))
  }

  function Init(markers: set<Volume>): Sys {
    Sys(map[], None, markers, true, None, false)
  }

  /** The state after a run; an action that is not possible when its turn comes is skipped. */
  function After(markers: set<Volume>, actions: seq<Action>): Sys {
    if actions == [] then Init(markers)
    else
      var before := After(markers, actions[..|actions| - 1]);
      if Enabled(before, actions[|actions| - 1]) then Apply(before, actions[|actions| - 1]) else before
  }

  // -------------------------------------------------------------- invariant

  ghost predicate CallInv(s: Sys, t: Tid)
    requires t in s.calls
  {
    var c := s.calls[t];
    && (Holds(c.loc) <==> s.lock == Some(t))
    && (c.loc.Unmounting? || c.unmount.Some? ==> s.blind || s.markers == {})
    && (c.unmount.Some? ==> c.loc.Leaving? || c.loc.Done?)
    && (c.unmount == Some(NothingThere) || Detaches(c) ==> !s.mounted)
    && (c.unmount.Some? ==> c.loc == Leaving(c.unmount.value.Ok()) || c.loc == Done(c.unmount.value.Ok()))
  }

  predicate Detaches(c: Call) {
    c.unmount.Some? && c.unmount.value.Gone()
  }

  ghost predicate Inv(s: Sys, before: set<Volume>) {
    && (!s.mounted ==> exists t :: t in s.calls && Detaches(s.calls[t]))
    && (forall t :: t in s.calls ==> CallInv(s, t))
    && (s.lock.Some? ==> s.lock.value in s.calls)
    && s.markers <= before
    && (!s.mounted ==> s.blind || s.markers == {})
    && (s.emptied.Some? <==> before != {} && s.markers == {})
    && (s.emptied.Some? ==>
          && s.emptied.value in s.calls
          && var c := s.calls[s.emptied.value];
             c.volume in before && (c.loc.Checking? || c.loc.Unmounting? || c.unmount.Some?))
  }

  lemma DoKeepsCalls(s: Sys, before: set<Volume>, t: Tid, k: Step, u: Tid)
    requires Inv(s, before) && Enabled(s, Do(t, k)) && u in s.calls
    ensures CallInv(Apply(s, Do(t, k)), u)
  {
    assert CallInv(s, u) && CallInv(s, t);
  }

  lemma StepKeeps(s: Sys, before: set<Volume>, a: Action)
    requires Inv(s, before) && Enabled(s, a)
    ensures Inv(Apply(s, a), before)
  {
    var s' := Apply(s, a);
    match a
    case Start(t, v) =>
      forall u | u in s'.calls ensures CallInv(s', u) { assert u != t ==> CallInv(s, u); }
      if !s.mounted {
        var u :| u in s.calls && Detaches(s.calls[u]);
        assert s'.calls[u] == s.calls[u];
      }
    case Do(t, k) =>
      forall u | u in s'.calls ensures CallInv(s', u) { DoKeepsCalls(s, before, t, k, u); }
      assert CallInv(s, t) && CallInv(s', t);
      if !s'.mounted {
        var u :| u in s'.calls && if s.mounted then u == t else u in s.calls && Detaches(s.calls[u]);
        assert CallInv(s, u) && Detaches(s'.calls[u]);
      }
  }

  lemma {:induction false} Always(markers: set<Volume>, actions: seq<Action>)
    ensures Inv(After(markers, actions), markers)
  {
    if actions != [] {
      Always(markers, actions[..|actions| - 1]);
      var before := After(markers, actions[..|actions| - 1]);
      if Enabled(before, actions[|actions| - 1]) { StepKeeps(before, markers, actions[|actions| - 1]); }
    }
  }

  // --------------------------------------------------------- the whole call

  /**
   * The call found its marker, or could not look, and took the lock: it
   * removed the marker or failed there; with markers left it is done; with
   * none it went on to unmount the export, and its result is that of the
   * unmount.
   */
  predicate GoesThrough(trace: seq<Step>, left: Option<bool>, ok: bool) {
    && |trace| >= 3 && trace[0].Look? && trace[1].Enter? && trace[2].Remove?
    && (if trace[2].fails then |trace| == 3 && !ok
        else
          && |trace| >= 4 && trace[3].Check? && left.Some?
          && (if left.value then |trace| == 4 && ok else |trace| == 5 && trace[4].End? && ok == trace[4].how.Ok()))
  }

  predicate Story(c: Call) {
    match c.loc
    case Looking => c.trace == []
    case Waiting => |c.trace| == 1 && c.trace[0].Look?
    case Removing => |c.trace| == 2 && c.trace[0].Look? && c.trace[1].Enter?
    case Checking => |c.trace| == 3 && c.trace[0].Look? && c.trace[1].Enter? && c.trace[2] == Remove(false)
    case Unmounting =>
      && |c.trace| == 4 && c.trace[0].Look? && c.trace[1].Enter? && c.trace[2] == Remove(false) && c.trace[3].Check?
      && c.left == Some(false)
    case Leaving(ok) => GoesThrough(c.trace, c.left, ok)
    case Done(ok) => Over(c, ok)
  }

  /** It found no marker, or gave up waiting for the lock, or went through and left. */
  predicate Over(c: Call, ok: bool) {
    var n := |c.trace|;
    || (c.trace == [Look(true)] && ok)
    || (n == 2 && c.trace[0].Look? && c.trace[1].TimeOut? && !ok)
    || (n > 0 && c.trace[n - 1].Leave? && GoesThrough(c.trace[..n - 1], c.left, ok))
  }

  lemma DoKeepsStory(s: Sys, c: Call, k: Step)
    requires Story(c) && Can(s, c, k)
    ensures var left := if k.Check? then Some(k.readable && s.markers != {}) else c.left;
            Story(Call(c.volume, LocAfter(s, c, k), if k.End? then Some(k.how) else c.unmount, c.trace + [k], left))
  {
    if k.Leave? {
      assert (c.trace + [k])[..|c.trace|] == c.trace;
    }
  }

  lemma {:induction false} StoriesHold(markers: set<Volume>, actions: seq<Action>)
    ensures forall t :: t in After(markers, actions).calls ==> Story(After(markers, actions).calls[t])
  {
    if actions != [] {
      var before, a := After(markers, actions[..|actions| - 1]), actions[|actions| - 1];
      StoriesHold(markers, actions[..|actions| - 1]);
      if a.Do? && Enabled(before, a) {
        DoKeepsStory(before, before.calls[a.t], a.k);
      }
    }
  }

  // --------------------------------------------------------------- theorems

  /** Every finished unstage went one of the ways it may, and reports success exactly as that way says. */
  lemma UnstagesAnswer(markers: set<Volume>, actions: seq<Action>, t: Tid)
    requires var s := After(markers, actions); t in s.calls && s.calls[t].loc.Done?
    ensures var c := After(markers, actions).calls[t]; Over(c, c.loc.success)
  {
    StoriesHold(markers, actions);
    var c := After(markers, actions).calls[t];
    assert Story(c);
  }

  /** While the marker directory can be read, the export is not unmounted before the last marker is gone. */
  lemma UnmountedAfterLastMarker(markers: set<Volume>, actions: seq<Action>)
    requires !After(markers, actions).mounted && !After(markers, actions).blind
    ensures After(markers, actions).markers == {}
  {
    Always(markers, actions);
  }

  /**
   * The call that removed the last marker, once finished, has tried to unmount
   * the export. It reports success exactly when its unmount ended well; and
   * success with the export still mounted means exactly that its mount check
   * had no answer and no other call has detached the export.
   */
  lemma LastUnstageUnmounts(markers: set<Volume>, actions: seq<Action>, t: Tid)
    requires var s := After(markers, actions); s.emptied == Some(t) && t in s.calls && s.calls[t].loc.Done?
    ensures var s := After(markers, actions);
            && s.calls[t].unmount.Some?
            && (s.calls[t].loc.success ==> !s.mounted || s.calls[t].unmount == Some(Unchecked))
            && (s.calls[t].loc.success <==> s.calls[t].unmount.value.Ok())
            && (s.calls[t].loc.success && s.mounted <==>
                  s.calls[t].unmount == Some(Unchecked) && forall u :: u in s.calls ==> !Detaches(s.calls[u]))
  {
    Always(markers, actions);
    assert CallInv(After(markers, actions), t);
    MountedUntilDetached(markers, actions);
  }

  /** The export is mounted exactly as long as no call's unmount has detached it; no other end of a call does. */
  lemma MountedUntilDetached(markers: set<Volume>, actions: seq<Action>)
    ensures var s := After(markers, actions); s.mounted <==> forall t :: t in s.calls ==> !Detaches(s.calls[t])
  {
    Always(markers, actions);
    var s := After(markers, actions);
    forall t | s.mounted && t in s.calls ensures !Detaches(s.calls[t]) {
      assert CallInv(s, t);
    }
  }

  /**
   * The export outlives all its markers only when the unmount of the call
   * that removed the last one is still to come, failed, or had no answer from
   * the mount check.
   */
  lemma {:induction false} WhenTheExportStays(markers: set<Volume>, actions: seq<Action>)
    requires markers != {} && After(markers, actions).markers == {} && After(markers, actions).mounted
    ensures var s := After(markers, actions);
            && s.emptied.Some? && s.emptied.value in s.calls
            && var c := s.calls[s.emptied.value];
               c.loc.Checking? || c.loc.Unmounting? || c.unmount == Some(FailedMounted) || c.unmount == Some(Unchecked)
  {
    Always(markers, actions);
    var s := After(markers, actions);
    assert CallInv(s, s.emptied.value);
  }

  function UnstageSteps(t: Tid, v: Volume, how: Unmount): seq<Action> {
    [Start(t, v), Do(t, Look(true)), Do(t, Enter), Do(t, Remove(false)), Do(t, Check(true)), Do(t, End(how)),
        Do(t, Leave)]
  }

  lemma {:induction false} AfterAppend(markers: set<Volume>, first: seq<Action>, a: Action)
    ensures After(markers, first + [a]) == if Enabled(After(markers, first), a) then Apply(After(markers, first), a)
      else After(markers, first)
  {
    assert (first + [a])[..|first|] == first;
  }

  /** One call alone, from a state it is not yet part of. */
  lemma UnstageAlone(markers: set<Volume>, first: seq<Action>, t: Tid, v: Volume, how: Unmount)
    requires var s := After(markers, first);
             t !in s.calls && s.lock.None? && s.markers == {v} && s.mounted && !how.NothingThere?
    ensures var s, s' := After(markers, first), After(markers, first + UnstageSteps(t, v, how));
            && t in s'.calls && s'.calls == s.calls[t := s'.calls[t]] && s'.calls[t].volume == v
            && s'.calls[t].loc == Done(how.Ok()) && s'.calls[t].unmount == Some(how)
            && s'.lock.None? && s'.markers == {} && s'.mounted == (how.FailedMounted? || how.Unchecked?)
  {
    var k := UnstageSteps(t, v, how);
    var a1 := first + [k[0]];
    var a2 := a1 + [k[1]];
    var a3 := a2 + [k[2]];
    var a4 := a3 + [k[3]];
    AfterAppend(markers, first, k[0]);
    AfterAppend(markers, a1, k[1]);
    AfterAppend(markers, a2, k[2]);
    AfterAppend(markers, a3, k[3]);
    UnmountAlone(markers, a4, t, how);
    assert first + k == a4 + k[4..];
  }

  lemma UnmountAlone(markers: set<Volume>, first: seq<Action>, t: Tid, how: Unmount)
    requires var s := After(markers, first);
             t in s.calls && s.calls[t].loc.Checking? && s.markers == {} && s.mounted && !how.NothingThere?
    ensures var s, s' :=
            After(markers, first), After(markers, first + [Do(t, Check(true)), Do(t, End(how)), Do(t, Leave)]);
            && t in s'.calls && s'.calls == s.calls[t := s'.calls[t]] && s'.calls[t].volume == s.calls[t].volume
            && s'.calls[t].loc == Done(how.Ok()) && s'.calls[t].unmount == Some(how)
            && s'.lock.None? && s'.markers == {} && s'.mounted == (how.FailedMounted? || how.Unchecked?)
  {
    var a1 := first + [Do(t, Check(true))];
    var a2 := a1 + [Do(t, End(how))];
    AfterAppend(markers, first, Do(t, Check(true)));
    AfterAppend(markers, a1, Do(t, End(how)));
    AfterAppend(markers, a2, Do(t, Leave));
    assert first + [Do(t, Check(true)), Do(t, End(how)), Do(t, Leave)] == a2 + [Do(t, Leave)];
  }

  /**
   * A retry does not make up for a failed unmount: it finds no marker and
   * reports success, for good, with the export still mounted.
   */
  lemma RetryLeavesExport(v: Volume) returns (actions: seq<Action>)
    ensures var s := After({v}, actions);
            && s.calls.Keys == {0, 1} && s.calls[0].volume == v && s.calls[1].volume == v
            && s.calls[0].loc == Done(false) && s.calls[0].unmount == Some(FailedMounted)
            && s.calls[1].loc == Done(true) && s.calls[1].unmount == None
            && s.mounted && s.markers == {}
  {
    var first := UnstageSteps(0, v, FailedMounted);
    UnstageAlone({v}, [], 0, v, FailedMounted);
    assert [] + first == first;
    AfterAppend({v}, first, Start(1, v));
    AfterAppend({v}, first + [Start(1, v)], Do(1, Look(true)));
    actions := first + [Start(1, v)] + [Do(1, Look(true))];
  }
}
