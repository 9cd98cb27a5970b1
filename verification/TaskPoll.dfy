/**
 * Waiting for Anvil tasks, and the share create and delete that depend on it
 * (pkg/client/hsclient.go). Requests become a function that answers the i-th
 * poll; time is in nanoseconds since the wait began.
 */
module TaskPoll {
  import opened Wrappers

  const SECOND: nat := 1_000_000_000
  const TIMEOUT := 3600 * SECOND
  const FAST_INTERVAL := 2 * SECOND
  const FAST_WINDOW := 30 * SECOND
  const SLOW_INTERVAL := 4 * SECOND

  const MAX_FAST: nat := 15
  const MAX_SLOW: nat := 893

  const TERMINAL := {"VALIDATION_FAILED", "RESUMED", "FAILED", "HALTED", "CANCELLED", "COMPLETED"}

  /** One answer to GET /tasks/id. A task without a status leaves the last one seen. */
  datatype Reply = RequestError | BadStatus | BadJson | Task(status: Option<string>)

  datatype Wait = Completed | Failed | Error

  /** The time that passes in the i-th turn besides its sleep. */
  datatype Delay = Delay(between: nat, request: nat)

  predicate Continues(r: Reply) {
    r.Task? && (r.status.None? ||
                r.status.value !in {"VALIDATION_FAILED", "RESUMED", "FAILED", "HALTED", "CANCELLED", "COMPLETED"})
  }

  predicate Succeeds(r: Reply) {
    r.Task? && r.status == Some("COMPLETED")
  }

  /** The poll did not get to see the task. */
  predicate Unseen(r: Reply) {
    r.RequestError? || r.BadStatus?
  }

  ghost predicate NoDelay(delay: nat -> Delay) {
    forall i: nat :: delay(i) == Delay(0, 0)
  }

  /** When a turn that begins at `start` looks at the clock again and chooses how long to sleep. */
  function Chosen(start: nat, d: Delay): nat {
    start + d.between
  }

  /** When the turn after it would begin. */
  function AfterTurn(start: nat, d: Delay): nat {
    Chosen(start, d) + (if Chosen(start, d) >= FAST_WINDOW then SLOW_INTERVAL else FAST_INTERVAL) + d.request
  }

  /** When each turn begins, and last when another would. */
  ghost predicate Turns(delay: nat -> Delay, turns: seq<nat>) {
    && turns != [] && turns[0] == 0
    && forall i: nat {:trigger delay(i)} :: i + 1 < |turns| ==> turns[i + 1] == AfterTurn(turns[i], delay(i))
  }

  /** The first `fast` turns are those that choose their sleep in the first 30 seconds. */
  ghost predicate Split(delay: nat -> Delay, turns: seq<nat>, fast: nat) {
    && fast < |turns|
    && forall i: nat {:trigger delay(i)} :: i + 1 < |turns| ==> (i < fast <==> Chosen(turns[i], delay(i)) < FAST_WINDOW)
  }

  /** Every turn takes at least its sleep: what n turns, `fast` of them fast, say about the time now. */
  ghost predicate Paced(now: nat, n: nat, fast: nat) {
    && fast <= n && fast <= MAX_FAST && n - fast <= MAX_SLOW && fast * FAST_INTERVAL <= now
    && (n > fast ==> FAST_WINDOW + (n - fast) * SLOW_INTERVAL <= now)
  }

  /** So few turns begin within the hour, and the slow ones come last. */
  lemma PaceKept(now: nat, n: nat, fast: nat, d: Delay)
    requires Paced(now, n, fast) && now < TIMEOUT
    ensures Chosen(now, d) < FAST_WINDOW ==> fast == n && Paced(AfterTurn(now, d), n + 1, fast + 1)
    ensures Chosen(now, d) >= FAST_WINDOW ==> Paced(AfterTurn(now, d), n + 1, fast)
  {
  }

  /** One more turn. */
  lemma TurnTaken(delay: nat -> Delay, turns: seq<nat>, fast: nat, d: Delay, fast': nat)
    requires Turns(delay, turns) && Split(delay, turns, fast) && d == delay(|turns| - 1)
    requires fast' == if Chosen(turns[|turns| - 1], d) < FAST_WINDOW then |turns| else fast
    requires Chosen(turns[|turns| - 1], d) < FAST_WINDOW ==> fast == |turns| - 1
    ensures var turns' := turns + [AfterTurn(turns[|turns| - 1], d)];
            Turns(delay, turns') && Split(delay, turns', fast')
  {
  }

  /** The begin of turn n when nothing is delayed. */
  function Undelayed(n: nat): nat {
    if n <= MAX_FAST then n * FAST_INTERVAL else FAST_WINDOW + (n - MAX_FAST) * SLOW_INTERVAL
  }

  lemma {:induction false} UndelayedTurns(delay: nat -> Delay, turns: seq<nat>, n: nat)
    requires NoDelay(delay) && Turns(delay, turns) && n < |turns|
    ensures turns[n] == Undelayed(n)
  {
    if n > 0 {
      UndelayedTurns(delay, turns, n - 1);
      assert delay(n - 1) == Delay(0, 0);
    }
  }

  /** A wait that runs into the hour without delay has used up its polls. */
  lemma UndelayedWait(delay: nat -> Delay, turns: seq<nat>)
    requires NoDelay(delay) && Turns(delay, turns) && |turns| > 1
    requires turns[|turns| - 2] < TIMEOUT <= turns[|turns| - 1]
    ensures |turns| == MAX_FAST + MAX_SLOW + 1
  {
    UndelayedTurns(delay, turns, |turns| - 1);
    UndelayedTurns(delay, turns, |turns| - 2);
  }

  /**
   * WaitForTaskCompletionResult. Whatever the answers and the delays: the
   * first `fast` polls, at most 15, are those that start in the first 30
   * seconds, and at most 893 start after them. The wait ends with the first
   * poll that is not a live task, or when a turn would begin past the hour, and
   * not before; it is Completed exactly when its last poll says so. The bound
   * is met when nothing is delayed.
   */
  method WaitForTask(reply: nat -> Reply, delay: nat -> Delay)
    returns (result: Wait, polls: nat, ghost fast: nat, ghost turns: seq<nat>)
    ensures 0 < polls && fast <= MAX_FAST && polls - fast <= MAX_SLOW
    ensures |turns| == polls + 1 && Turns(delay, turns) && Split(delay, turns, fast)
    ensures forall i: nat :: i < polls ==> turns[i] < TIMEOUT
    ensures forall i: nat :: i + 1 < polls ==> Continues(reply(i))
    ensures Continues(reply(polls - 1)) ==> turns[polls] >= TIMEOUT
    ensures result.Completed? <==> Succeeds(reply(polls - 1))
    ensures result.Error? <==> Continues(reply(polls - 1)) || Unseen(reply(polls - 1))
    ensures NoDelay(delay) && (forall i: nat :: i < MAX_FAST + MAX_SLOW ==> Continues(reply(i))) ==>
              polls == MAX_FAST + MAX_SLOW && result.Error?
  {
    polls, fast, turns := 0, 0, [0];
    var elapsed, status := 0, "";
    while elapsed < TIMEOUT
      invariant |turns| == polls + 1 && turns[polls] == elapsed
      invariant Turns(delay, turns) && Split(delay, turns, fast) && Paced(elapsed, polls, fast)
      invariant forall i: nat :: i < polls ==> turns[i] < TIMEOUT
      invariant forall i: nat :: i < polls ==> Continues(reply(i))
      invariant status !in TERMINAL
      decreases TIMEOUT - elapsed
    {
      PaceKept(elapsed, polls, fast, delay(polls));
      ghost var fast' := if Chosen(elapsed, delay(polls)) < FAST_WINDOW then polls + 1 else fast;
      TurnTaken(delay, turns, fast, delay(polls), fast');
      turns := turns + [AfterTurn(elapsed, delay(polls))];
      elapsed := elapsed + delay(polls).between;
      var interval := FAST_INTERVAL;
      if elapsed >= FAST_WINDOW {
        interval := SLOW_INTERVAL;
      } else {
        fast := fast + 1;
      }
      elapsed := elapsed + interval + delay(polls).request;
      polls := polls + 1;
      var answer := reply(polls - 1);
      if answer.RequestError? || answer.BadStatus? {
        return Error, polls, fast, turns;
      }
      if answer.BadJson? {
        return Failed, polls, fast, turns;
      }
      if answer.status.Some? {
        status := answer.status.value;
      }
      if status in TERMINAL {
        return if status == "COMPLETED" then Completed else Failed, polls, fast, turns;
      }
    }
    if NoDelay(delay) {
      UndelayedWait(delay, turns);
    }
    return Error, polls, fast, turns;
  }

  // ------------------------------------------------------------ share create

  /** The actions and IDs of the running tasks a 400 names, in order. */
  type Running = seq<(string, string)>

  datatype Answer = NoAnswer | Status(code: nat, location: bool, running: Running, removed: bool, busy: bool)

  datatype Code = Ok | InvalidArgument | Aborted | Unavailable | Other

  /** runningTaskID: the first task of that action, if any. */
  method RunningTask(running: Running, action: string) returns (id: Option<string>)
    ensures id.None? <==> forall i :: 0 <= i < |running| ==> running[i].0 != action
    ensures id.Some? ==>
      exists i :: 0 <= i < |running| && running[i] == (action, id.value) &&
        forall j :: 0 <= j < i ==> running[j].0 != action
  {
    for i := 0 to |running|
      invariant forall j :: 0 <= j < i ==> running[j].0 != action
    {
      if running[i].0 == action {
        return Some(running[i].1);
      }
    }
    return None;
  }

  predicate Queued(running: Running, action: string) {
    exists i :: 0 <= i < |running| && running[i].0 == action
  }

  /**
   * CreateShare. Success means a poll of a share-create task, its own or one
   * already queued, said COMPLETED; and nothing else does. The share is
   * deleted again exactly when Anvil accepted the create but its task failed
   * or was not named; a wait that could not see the end deletes nothing. (A 400
   * that names no task is an error whatever the task list then shows.)
   */
  method CreateShare(nameLength: nat, objectivesOk: bool, answer: Answer, reply: nat -> Reply, delay: nat -> Delay)
    returns (code: Code, polls: nat, deletes: bool)
    ensures code.Ok? <==>
      && nameLength <= 80 && objectivesOk && answer.Status?
      && (if answer.code == 202 then answer.location else answer.code == 400 && Queued(answer.running, "share-create"))
      && polls > 0 && Succeeds(reply(polls - 1))
    ensures forall i: nat :: i + 1 < polls ==> Continues(reply(i))
    ensures polls <= MAX_FAST + MAX_SLOW
    ensures deletes <==>
      && nameLength <= 80 && objectivesOk && answer.Status? && answer.code == 202
      && (answer.location ==>
            polls > 0 && !Continues(reply(polls - 1)) && !Succeeds(reply(polls - 1)) && !Unseen(reply(polls - 1)))
    ensures code.Aborted? <==>
      && nameLength <= 80 && objectivesOk
      && answer.Status? && answer.code == 400 && Queued(answer.running, "share-create")
      && polls > 0 && (Continues(reply(polls - 1)) || Unseen(reply(polls - 1)))
    ensures code.InvalidArgument? <==> nameLength > 80
  {
    polls, deletes := 0, false;
    if nameLength > 80 {
      return InvalidArgument, polls, deletes;
    }
    if !objectivesOk || answer.NoAnswer? {
      return Other, polls, deletes;
    }
    var result;
    ghost var fast, turns;
    if answer.code != 202 {
      if answer.code == 400 {
        var id := RunningTask(answer.running, "share-create");
        if id.Some? {
          result, polls, fast, turns := WaitForTask(reply, delay);
          return if result.Error? then Aborted else if result.Failed? then Other else Ok, polls, deletes;
        }
      }
      return Other, polls, deletes;
    }
    if answer.location {
      result, polls, fast, turns := WaitForTask(reply, delay);
      return if result.Completed? then Ok else Other, polls, result.Failed?;
    }
    return Other, polls, true;
  }

  // ------------------------------------------------------------ share delete

  method WaitForShareDelete(reply: nat -> Reply, delay: nat -> Delay) returns (code: Code, polls: nat)
    ensures 0 < polls <= MAX_FAST + MAX_SLOW
    ensures code.Ok? <==> Succeeds(reply(polls - 1))
    ensures code.Aborted? <==> Continues(reply(polls - 1)) || Unseen(reply(polls - 1))
    ensures code.Ok? || code.Aborted? || code.Other?
    ensures forall i: nat :: i + 1 < polls ==> Continues(reply(i))
  {
    var result;
    ghost var fast, turns;
    result, polls, fast, turns := WaitForTask(reply, delay);
    code := match result
      case Completed => Ok
      case Error => Aborted
      case Failed => Other;
  }

  /**
   * DeleteShare: without a task, success is what Anvil's own answer says (gone,
   * already removed, or accepted with no task to watch); with a task, only a
   * poll that said COMPLETED. Aborted means exactly that the end was not seen.
   */
  method DeleteShare(answer: Answer, reply: nat -> Reply, delay: nat -> Delay) returns (code: Code, polls: nat)
    ensures answer.NoAnswer? ==> code.Other?
    ensures answer.Status? ==>
      var watches := (answer.code == 202 && answer.location) ||
        (answer.code == 400 && !answer.removed && Queued(answer.running, "share-delete"));
      && (watches <==> polls > 0)
      && (code.Ok? <==> if watches then Succeeds(reply(polls - 1))
                        else answer.code in {200, 202, 404} || (answer.code == 400 && answer.removed))
      && (code.Aborted? <==> watches && (Continues(reply(polls - 1)) || Unseen(reply(polls - 1))))
      && (code.Unavailable? <==> !watches && answer.code == 400 && !answer.removed && answer.busy)
  {
    polls := 0;
    if answer.NoAnswer? {
      return Other, polls;
    }
    if answer.code == 400 {
      if answer.removed {
        return Ok, polls;
      }
      var id := RunningTask(answer.running, "share-delete");
      if id.Some? {
        code, polls := WaitForShareDelete(reply, delay);
        return;
      }
      if answer.busy {
        return Unavailable, polls;
      }
    }
    if answer.code == 404 || answer.code == 200 {
      return Ok, polls;
    }
    if answer.code != 202 {
      return Other, polls;
    }
    if answer.location {
      code, polls := WaitForShareDelete(reply, delay);
      return;
    }
    return Ok, polls;
  }
}
