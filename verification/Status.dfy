/**
 * The status conditions every reconcile outcome writes
 * (operator/internal/operator/reconcile.go, condition).
 */
module Status {
  import opened Wrappers

  type Time = string

  /** A condition as stored; `since` is missing when lastTransitionTime is not a string. */
  datatype Condition = Condition(kind: string, status: string, reason: string, message: string, generation: int,
    since: Option<Time>)

  datatype Status = Status(generation: int, conditions: seq<Condition>, images: map<string, string>)

  /** What a pass reports: the outcome, and the resource and images it is about. */
  datatype Report = Report(available: bool, progressing: bool, reason: string, message: string, generation: int,
    images: map<string, string>)

  const KINDS := ["Available", "Progressing", "Degraded"]

  function Truth(b: bool): string
  {
    if b then "True" else "False"
  }

  function Holds(r: Report, i: nat): bool
    requires i < 3
  {
    if i == 0 then r.available else if i == 1 then r.progressing else !r.available && !r.progressing
  }

  predicate Matches(c: Condition, kind: string, status: string) {
    c.kind == kind && c.status == status && c.since.Some?
  }

  /** The transition time: of the last stored entry with this kind and status, or now. */
  function Since(prior: seq<Condition>, kind: string, status: string, now: Time): Time {
    if prior == [] then now
    else if Matches(prior[|prior| - 1], kind, status) then prior[|prior| - 1].since.value
    else Since(prior[..|prior| - 1], kind, status, now)
  }

  predicate LastMatch(prior: seq<Condition>, kind: string, status: string, i: nat) {
    && i < |prior| && Matches(prior[i], kind, status)
    && forall j :: i < j < |prior| ==> !Matches(prior[j], kind, status)
  }

  /** Of several stored entries that match, the last one decides; if none does, it is now. */
  lemma {:induction false} SinceIsLast(prior: seq<Condition>, kind: string, status: string, now: Time)
    ensures (forall i :: 0 <= i < |prior| ==> !Matches(prior[i], kind, status)) ==>
      Since(prior, kind, status, now) == now
    ensures forall i: nat :: LastMatch(prior, kind, status, i) ==>
      Since(prior, kind, status, now) == prior[i].since.value
  {
    if prior != [] {
      var rest := prior[..|prior| - 1];
      SinceIsLast(rest, kind, status, now);
      forall i: nat | LastMatch(prior, kind, status, i)
        ensures Since(prior, kind, status, now) == prior[i].since.value
      {
        if i < |rest| { assert LastMatch(rest, kind, status, i); }
      }
    }
  }

  function Stored(prior: Option<Status>): seq<Condition> {
    if prior.Some? then prior.value.conditions else []
  }

  function Entry(prior: Option<Status>, r: Report, i: nat, now: Time): Condition
    requires i < 3
  {
    var since := Since(Stored(prior), KINDS[i], Truth(Holds(r, i)), now);
    Condition(KINDS[i], Truth(Holds(r, i)), r.reason, r.message, r.generation, Some(since))
  }

  /** The status the outcome stands for; the clock is read once for each condition. */
  function Next(prior: Option<Status>, r: Report, clock: nat -> Time): Status {
    var conditions := [Entry(prior, r, 0, clock(0)), Entry(prior, r, 1, clock(1)), Entry(prior, r, 2, clock(2))];
    Status(r.generation, conditions, r.images)
  }

  /** The status says of the outcome what it should, condition by condition. */
  predicate Says(s: Status, r: Report) {
    && s.generation == r.generation && s.images == r.images && |s.conditions| == 3
    && s.conditions[0].kind == "Available" && (s.conditions[0].status == if r.available then "True" else "False")
    && s.conditions[1].kind == "Progressing" && (s.conditions[1].status == if r.progressing then "True" else "False")
    && s.conditions[2].kind == "Degraded"
    && (s.conditions[2].status == if r.available || r.progressing then "False" else "True")
    && forall c :: c in s.conditions ==> c.reason == r.reason && c.message == r.message && c.generation == r.generation
  }

  lemma NextSays(prior: Option<Status>, r: Report, clock: nat -> Time)
    ensures Says(Next(prior, r, clock), r)
  {
  }

  method SetCondition(prior: Option<Status>, r: Report, clock: nat -> Time) returns (status: Status, write: bool)
    ensures status == Next(prior, r, clock)
    ensures Says(status, r)
    ensures write <==> prior != Some(status)
  {
    var conditions: seq<Condition> := [];
    var stored := Stored(prior);
    for i := 0 to 3
      invariant |conditions| == i && forall n :: 0 <= n < i ==> conditions[n] == Entry(prior, r, n, clock(n))
    {
      var value := if Holds(r, i) then "True" else "False";
      var transition := clock(i);
      for j := 0 to |stored|
        invariant transition == Since(stored[..j], KINDS[i], value, clock(i))
      {
        assert stored[..j + 1][..j] == stored[..j];
        if stored[j].kind == KINDS[i] && stored[j].status == value {
          if stored[j].since.Some? {
            transition := stored[j].since.value;
          }
        }
      }
      assert stored[..|stored|] == stored;
      conditions := conditions + [Condition(KINDS[i], value, r.reason, r.message, r.generation, Some(transition))];
    }
    status := Status(r.generation, conditions, r.images);
    NextSays(prior, r, clock);
    write := prior != Some(status);
  }

  predicate IsTrue(s: Status, i: nat)
    requires i < |s.conditions|
  {
    s.conditions[i].status == "True"
  }

  /** Outcomes never claim both Available and Progressing, so exactly one condition is true. */
  lemma ExactlyOneTrue(prior: Option<Status>, r: Report, clock: nat -> Time)
    ensures var s := Next(prior, r, clock);
            && (forall i :: 0 <= i < 3 ==> s.conditions[i].kind == KINDS[i])
            && (!(r.available && r.progressing) <==>
                  exists i: nat :: i < 3 && IsTrue(s, i) && forall j: nat :: j < 3 && j != i ==> !IsTrue(s, j))
            && (IsTrue(s, 0) <==> r.available) && (IsTrue(s, 1) <==> r.progressing)
            && (IsTrue(s, 2) <==> !r.available && !r.progressing)
  {
    var s := Next(prior, r, clock);
    assert IsTrue(s, 0) == r.available && IsTrue(s, 1) == r.progressing &&
      IsTrue(s, 2) == (!r.available && !r.progressing);
    if !(r.available && r.progressing) {
      var i: nat := if r.available then 0 else if r.progressing then 1 else 2;
      assert IsTrue(s, i) && forall j: nat :: j < 3 && j != i ==> !IsTrue(s, j);
    }
  }

  /** A status this operator wrote: the three conditions in order, each true or false, each with its time. */
  ghost predicate Written(s: Status) {
    |s.conditions| == 3 && forall i :: 0 <= i < 3 ==> s.conditions[i].kind == KINDS[i] && s.conditions[i].since.Some?
  }

  /** On a status this operator wrote, a transition time is kept exactly when the condition did not flip. */
  lemma TimeKeptUnlessFlipped(s: Status, r: Report, i: nat, now: Time)
    requires Written(s) && i < 3
    ensures Entry(Some(s), r, i, now).since ==
              if s.conditions[i].status == Truth(Holds(r, i)) then s.conditions[i].since else Some(now)
  {
    var v := Truth(Holds(r, i));
    var c := s.conditions;
    assert KINDS[0] != KINDS[1] && KINDS[1] != KINDS[2] && KINDS[0] != KINDS[2] by {
      assert KINDS[0][0] == 'A' && KINDS[1][0] == 'P' && KINDS[2][0] == 'D';
    }
    assert c[..2][..1] == c[..1] && c[..1][..0] == [];
    assert Since(c[..1], KINDS[i], v, now) == if Matches(c[0], KINDS[i], v) then c[0].since.value else now;
    assert Since(c[..2], KINDS[i], v, now) == if Matches(c[1], KINDS[i], v) then c[1].since.value
      else Since(c[..1], KINDS[i], v, now);
    assert Since(c, KINDS[i], v, now) == if Matches(c[2], KINDS[i], v) then c[2].since.value
      else Since(c[..2], KINDS[i], v, now);
  }

  /** Repeating the outcome on the status it led to, at any later time, changes nothing and writes nothing. */
  lemma RepeatIsFixedPoint(prior: Option<Status>, r: Report, clock: nat -> Time, later: nat -> Time)
    ensures Written(Next(prior, r, clock))
    ensures Next(Some(Next(prior, r, clock)), r, later) == Next(prior, r, clock)
  {
    var s := Next(prior, r, clock);
    TimeKeptUnlessFlipped(s, r, 0, later(0));
    TimeKeptUnlessFlipped(s, r, 1, later(1));
    TimeKeptUnlessFlipped(s, r, 2, later(2));
  }

  // ------------------------------------------------------------------- runs

  /** One pass, with the times its clock shows. */
  datatype Pass = Pass(report: Report, clock: nat -> Time)

  /** The stored status after a run of passes on a resource that had none. */
  function After(passes: seq<Pass>): Option<Status> {
    if passes == [] then None
    else
      var last := passes[|passes| - 1];
      Some(Next(After(passes[..|passes| - 1]), last.report, last.clock))
  }

  /** The condition has had its present value since pass p, and another (or none) before. */
  ghost predicate ConstantSince(passes: seq<Pass>, i: nat, p: nat)
    requires i < 3
  {
    && p < |passes|
    && (forall q :: p <= q < |passes| ==> Holds(passes[q].report, i) == Holds(passes[p].report, i))
    && (p > 0 ==> Holds(passes[p - 1].report, i) != Holds(passes[p].report, i))
  }

  /** The condition has this truth since this time. */
  ghost predicate HeldSince(s: Status, i: nat, holds: bool, since: Time)
    requires i < 3
  {
    Written(s) && s.conditions[i].status == Truth(holds) && s.conditions[i].since == Some(since)
  }

  lemma OneMorePass(s: Status, r: Report, clock: nat -> Time, i: nat, holds: bool, since: Time)
    requires i < 3 && HeldSince(s, i, holds, since)
    ensures HeldSince(Next(Some(s), r, clock), i, Holds(r, i), if Holds(r, i) == holds then since else clock(i))
  {
    TimeKeptUnlessFlipped(s, r, i, clock(i));
  }

  /** After any run, the stored time of each condition is the time of the pass that last flipped it. */
  lemma {:induction false} TimeOfLastFlip(passes: seq<Pass>, i: nat, p: nat)
    requires i < 3 && ConstantSince(passes, i, p)
    ensures HeldSince(After(passes).value, i, Holds(passes[p].report, i), passes[p].clock(i))
  {
    var n := |passes| - 1;
    var rest := passes[..n];
    if n > 0 {
      var p' := if p < n then p else LastFlip(rest, i);
      TimeOfLastFlip(rest, i, p');
      assert passes[n - 1] == rest[n - 1] && Holds(rest[n - 1].report, i) == Holds(rest[p'].report, i);
      var held, since := Holds(rest[p'].report, i), rest[p'].clock(i);
      OneMorePass(After(rest).value, passes[n].report, passes[n].clock, i, held, since);
    }
  }

  /** Every run has such a pass, for each condition. */
  ghost function LastFlip(passes: seq<Pass>, i: nat): (p: nat)
    requires i < 3 && passes != []
    ensures ConstantSince(passes, i, p)
  {
    var n := |passes| - 1;
    if n == 0 || Holds(passes[n - 1].report, i) != Holds(passes[n].report, i) then n
    else LastFlip(passes[..n], i)
  }
}
