/**
 * Freezing and thawing the filesystems under a snapshot
 * (pkg/driver/freezer.go). The events record what was attempted, in order.
 */
module Freezer {
  type Target = string

  datatype Event = Freeze(target: Target, ok: bool) | Take(ok: bool) | Thaw(target: Target)

  /** The targets whose freeze attempt worked, in order. */
  function Frozen(events: seq<Event>): seq<Target> {
    if events == [] then []
    else
      var last := events[|events| - 1];
      Frozen(events[..|events| - 1]) + if last.Freeze? && last.ok then [last.target] else []
  }

  /** How many of the first n events are freezes that worked. */
  function Worked(events: seq<Event>, n: nat): nat
    requires n <= |events|
  {
    if n == 0 then 0
    else
      var last := events[n - 1];
      Worked(events, n - 1) + match last case Freeze(_, ok) => (if ok then 1 else 0) case _ => 0
  }

  /** The frozen targets are those of the freezes that worked, each in its place, and no others. */
  lemma {:induction false} FrozenInOrder(events: seq<Event>, n: nat)
    requires n <= |events|
    ensures |Frozen(events[..n])| == Worked(events, n)
    ensures forall i, x :: 0 <= i < n && events[i] == Freeze(x, true) ==>
      Worked(events, i) < Worked(events, n) && Frozen(events[..n])[Worked(events, i)] == x
  {
    if n > 0 {
      FrozenInOrder(events, n - 1);
      assert events[..n][..n - 1] == events[..n - 1];
    }
  }

  lemma {:induction false} FrozenExactly(events: seq<Event>, x: Target)
    ensures x in Frozen(events) <==> Freeze(x, true) in events
  {
    if events != [] {
      var n := |events| - 1;
      FrozenExactly(events[..n], x);
      assert events == events[..n] + [events[n]];
    }
  }

  /** A thaw attempt for each of the targets, the last one first. */
  function Thaws(frozen: seq<Target>): seq<Event> {
    if frozen == [] then [] else [Thaw(frozen[|frozen| - 1])] + Thaws(frozen[..|frozen| - 1])
  }

  lemma {:induction false} ThawsReverse(frozen: seq<Target>, i: nat)
    requires i < |frozen|
    ensures |Thaws(frozen)| == |frozen| && Thaws(frozen)[i] == Thaw(frozen[|frozen| - 1 - i])
  {
    if |frozen| > 1 { ThawsReverse(frozen[..|frozen| - 1], if i > 0 then i - 1 else 0); }
  }

  method FreezeTargets(targets: seq<Target>, works: Target -> bool) returns (frozen: seq<Target>, events: seq<Event>)
    ensures |events| == |targets| && forall i :: 0 <= i < |targets| ==>
      events[i] == Freeze(targets[i], works(targets[i]))
    ensures frozen == Frozen(events)
    ensures forall x :: x in frozen <==> x in targets && works(x)
  {
    frozen, events := [], [];
    for i := 0 to |targets|
      invariant |events| == i && forall j :: 0 <= j < i ==> events[j] == Freeze(targets[j], works(targets[j]))
      invariant frozen == Frozen(events)
      invariant forall x :: x in frozen <==> x in targets[..i] && works(x)
    {
      ghost var before := events;
      events := events + [Freeze(targets[i], works(targets[i]))];
      assert events[..i] == before;
      assert targets[..i + 1] == targets[..i] + [targets[i]];
      if !works(targets[i]) {
        continue;
      }
      frozen := frozen + [targets[i]];
    }
    assert targets[..|targets|] == targets;
  }

  /** Every target gets an attempt, in reverse order, whether or not earlier ones worked. */
  method Unfreeze(frozen: seq<Target>) returns (events: seq<Event>)
    ensures events == Thaws(frozen)
    ensures |events| == |frozen| && forall i :: 0 <= i < |frozen| ==> events[i] == Thaw(frozen[|frozen| - 1 - i])
  {
    events := [];
    assert frozen[..|frozen|] == frozen;
    for i := |frozen| downto 0
      invariant events + Thaws(frozen[..i]) == Thaws(frozen)
    {
      assert frozen[..i + 1][..i] == frozen[..i];
      events := events + [Thaw(frozen[i])];
    }
    if frozen != [] { ThawsReverse(frozen, 0); }
    forall i | 0 <= i < |frozen| ensures Thaws(frozen)[i] == Thaw(frozen[|frozen| - 1 - i]) {
      ThawsReverse(frozen, i);
    }
  }
}
