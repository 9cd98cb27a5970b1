/**
 * Whole passes of the operator: preflight, apply in order, readiness, and
 * cleanup (operator/internal/operator/reconcile.go, Reconcile and cleanup).
 */
module ReconcilePass {
  import opened Reconcile

  /** How the reads before the preflight end: the custom resource, its spec, the Secret and Render. */
  datatype Gate = CrMissing | CrUnreadable | InvalidSpec | NoSecret | BadSecret | RenderFails | Passed

  /** What the pass returns: silently, with an error, or with a status condition. */
  datatype Outcome = Quiet | Errored | Reported(available: bool, progressing: bool, reason: string)

  datatype Verdict = Clear | Conflict | CannotTell

  datatype Readiness = AllReady | Waiting | PodFailing | Unknown

  /** The read found nothing, or an object of ours. */
  ghost predicate Harmless(api: Cluster, cr: CR, log: seq<Call>, j: nat)
    requires j < |log|
  {
    api(j, log[j]).NotFound? || (api(j, log[j]).Found? && OwnedBy(api(j, log[j]).obj, cr))
  }

  /** Every call of the log is one the operator may make. */
  ghost predicate AllProper(api: Cluster, cr: CR, log: seq<Call>) {
    forall i: nat :: i < |log| ==> Proper(api, cr, log, i)
  }

  ghost predicate NoChange(log: seq<Call>, n: nat) {
    forall i :: n <= i < |log| ==> !Changes(log[i])
  }

  /** From call n on, nothing but workloads changes after a workload has. */
  ghost predicate WorkloadsChangeLast(log: seq<Call>, n: nat) {
    forall i, j :: n <= i < j < |log| && Changes(log[i]) && Changes(log[j]) && Workload(log[i].key) ==>
      Workload(log[j].key)
  }

  // -------------------------------------------------------------- preflight

  method Preflight(api: Cluster, cr: CR, desired: seq<Key>) returns (verdict: Verdict, log: seq<Call>)
    ensures |log| <= |desired| && forall i: nat :: i < |log| ==> log[i] == Get(desired[i])
    ensures verdict.Clear? <==> |log| == |desired| && forall i: nat :: i < |log| ==> Harmless(api, cr, log, i)
    ensures verdict.Conflict? ==>
      log != [] && api(|log| - 1, log[|log| - 1]).Found? && !Harmless(api, cr, log, |log| - 1)
    ensures verdict.CannotTell? ==> log != [] && !api(|log| - 1, log[|log| - 1]).Found?
    ensures !verdict.Clear? ==> AnsweredBadly(api, cr, log)
    ensures !verdict.Clear? ==> log != [] && forall i: nat :: i < |log| - 1 ==> Harmless(api, cr, log, i)
  {
    log := [];
    for m := 0 to |desired|
      invariant |log| == m && forall i: nat :: i < m ==> log[i] == Get(desired[i]) && Harmless(api, cr, log, i)
    {
      var answer := api(|log|, Get(desired[m]));
      ghost var before := log;
      log := log + [Get(desired[m])];
      assert forall i: nat :: i < m ==> Harmless(api, cr, before, i) ==> Harmless(api, cr, log, i);
      if answer.NotFound? {
        continue;
      }
      if !answer.Found? {
        assert !Harmless(api, cr, log, m);
        BadLast(api, cr, log);
        return CannotTell, log;
      }
      if !OwnedBy(answer.obj, cr) {
        assert !Harmless(api, cr, log, m);
        BadLast(api, cr, log);
        return Conflict, log;
      }
    }
    return Clear, log;
  }

  // ------------------------------------------------------------------ order

  /** The desired keys that are (or are not) workloads, in their own order. */
  function Select(keys: seq<Key>, workloads: bool): seq<Key> {
    if keys == [] then []
    else (if Workload(keys[0]) == workloads then [keys[0]] else []) + Select(keys[1..], workloads)
  }

  /** sort.SliceStable with "not a workload before a workload". */
  function WorkloadsLast(keys: seq<Key>): seq<Key> {
    Select(keys, false) + Select(keys, true)
  }

  lemma {:induction false} SelectKeeps(keys: seq<Key>, workloads: bool)
    ensures forall k :: k in Select(keys, workloads) ==> k in keys && Workload(k) == workloads
    ensures multiset(Select(keys, true)) + multiset(Select(keys, false)) == multiset(keys)
  {
    if keys != [] {
      SelectKeeps(keys[1..], workloads);
      assert keys == [keys[0]] + keys[1..];
    }
  }

  /** The order within a kind is that of the list: picking goes piece by piece, down to single keys. */
  lemma {:induction false} SelectIsStable(a: seq<Key>, b: seq<Key>, workloads: bool)
    ensures Select(a + b, workloads) == Select(a, workloads) + Select(b, workloads)
  {
    if a == [] {
      assert a + b == b;
    } else {
      var first := if Workload(a[0]) == workloads then [a[0]] else [];
      SelectIsStable(a[1..], b, workloads);
      assert (a + b)[1..] == a[1..] + b;
      assert first + (Select(a[1..], workloads) + Select(b, workloads)) ==
             first + Select(a[1..], workloads) + Select(b, workloads);
    }
  }

  lemma SelectsOne(k: Key, workloads: bool)
    ensures Select([k], workloads) == if Workload(k) == workloads then [k] else []
  {
    assert [k][1..] == [];
  }

  /** Nothing is dropped or added, and no workload comes before another kind. */
  lemma WorkloadsLastIsOrdered(keys: seq<Key>)
    ensures multiset(WorkloadsLast(keys)) == multiset(keys)
    ensures forall i, j :: 0 <= i < j < |WorkloadsLast(keys)| && Workload(WorkloadsLast(keys)[i]) ==>
      Workload(WorkloadsLast(keys)[j])
  {
    SelectKeeps(keys, true);
    SelectKeeps(keys, false);
    assert forall i :: 0 <= i < |Select(keys, false)| ==> Select(keys, false)[i] in Select(keys, false);
    assert forall i :: 0 <= i < |Select(keys, true)| ==> Select(keys, true)[i] in Select(keys, true);
  }

  /** In the order of the kinds themselves: no StatefulSet or DaemonSet before anything else. */
  lemma OtherKindsFirst(keys: seq<Key>, i: nat, j: nat)
    requires i < j < |WorkloadsLast(keys)|
    requires WorkloadsLast(keys)[i].kind == "StatefulSet" || WorkloadsLast(keys)[i].kind == "DaemonSet"
    ensures WorkloadsLast(keys)[j].kind == "StatefulSet" || WorkloadsLast(keys)[j].kind == "DaemonSet"
  {
    WorkloadsLastIsOrdered(keys);
  }

  // ------------------------------------------------------------------ apply

  lemma ApplyKeepsOrder(api: Cluster, cr: CR, log: seq<Call>, n: nat, log': seq<Call>, k: Key)
    requires n <= |log| && log <= log' && ProperFrom(api, cr, log', |log|, k)
    requires AllProper(api, cr, log) && WorkloadsChangeLast(log, n)
    requires Workload(k) || forall i :: n <= i < |log| && Changes(log[i]) ==> !Workload(log[i].key)
    ensures AllProper(api, cr, log') && WorkloadsChangeLast(log', n)
  {
    forall i: nat | i < |log'| ensures Proper(api, cr, log', i) {
      if i < |log| { ProperExtends(api, cr, log, log', i); }
    }
  }

  /** The operands in turn, up to the first that fails. */
  function ApplyAllSpec(api: Cluster, cr: CR, log: seq<Call>, keys: seq<Key>): (bool, seq<Call>)
    decreases |keys|
  {
    if keys == [] then (true, log)
    else
      var (ok, log1) := ApplySpec(api, cr, log, keys[0]);
      if ok then ApplyAllSpec(api, cr, log1, keys[1..]) else (false, log1)
  }

  lemma AppliedStays(api: Cluster, log: seq<Call>, log': seq<Call>, keys: seq<Key>)
    requires log <= log' && forall k :: k in keys ==> Applied(api, log, k)
    ensures forall k :: k in keys ==> Applied(api, log', k)
  {
    forall k | k in keys ensures Applied(api, log', k) {
      var j: nat :| j < |log| && (log[j].Create? || log[j].Patch?) && log[j].key == k && api(j, log[j]).Found?;
      assert log'[j] == log[j];
    }
  }

  method ApplyAll(api: Cluster, cr: CR, log0: seq<Call>, keys: seq<Key>) returns (ok: bool, log: seq<Call>)
    requires Honest(api) && AllProper(api, cr, log0)
    requires forall i, j :: 0 <= i < j < |keys| && Workload(keys[i]) ==> Workload(keys[j])
    ensures log0 <= log && AllProper(api, cr, log) && WorkloadsChangeLast(log, |log0|)
    ensures forall i :: |log0| <= i < |log| ==>
      (log[i].Get? || log[i].Create? || log[i].Upgrade? || log[i].Patch?) && log[i].key in keys
    ensures (ok, log) == ApplyAllSpec(api, cr, log0, keys)
    ensures ok ==> forall k :: k in keys ==> Applied(api, log, k)
    ensures !ok ==> AnsweredBadly(api, cr, log)
  {
    log := log0;
    for m := 0 to |keys|
      invariant log0 <= log && AllProper(api, cr, log) && WorkloadsChangeLast(log, |log0|)
      invariant forall i :: |log0| <= i < |log| ==>
        (log[i].Get? || log[i].Create? || log[i].Upgrade? || log[i].Patch?) && log[i].key in keys[..m]
      invariant ApplyAllSpec(api, cr, log, keys[m..]) == ApplyAllSpec(api, cr, log0, keys)
      invariant forall k :: k in keys[..m] ==> Applied(api, log, k)
    {
      ghost var before := log;
      ok, log := Apply(api, cr, log, keys[m]);
      ApplyKeepsOrder(api, cr, before, |log0|, log, keys[m]);
      assert keys[m..][1..] == keys[m + 1..];
      if !ok {
        ApplyFailsBadly(api, cr, before, keys[m]);
        return false, log;
      }
      AppliedStays(api, before, log, keys[..m]);
    }
    return true, log;
  }

  // -------------------------------------------------------------- readiness

  /** Some read since call n found a workload that is not ready. */
  ghost predicate SeenUnready(api: Cluster, log: seq<Call>, n: nat) {
    exists j: nat :: n <= j < |log| && log[j].Get? && api(j, log[j]).Found? && !api(j, log[j]).obj.ready
  }

  /** Call j read k, found it not ready, and found labels to select its pods by. */
  ghost predicate Selects(api: Cluster, log: seq<Call>, j: nat, k: Key) {
    && j < |log| && log[j] == Get(k) && api(j, log[j]).Found?
    && !api(j, log[j]).obj.ready && api(j, log[j]).obj.selector.Labels?
  }

  /** The last call did not find what it asked for, or found a workload whose selector cannot be read. */
  ghost predicate Fails(api: Cluster, log: seq<Call>) {
    && log != []
    && var answer := api(|log| - 1, log[|log| - 1]);
       !answer.Found? || (log[|log| - 1].Get? && answer.obj.selector.Malformed?)
  }

  /** The last call is a check that did not find its workload, or cannot go on from it. */
  ghost predicate Hidden(api: Cluster, log: seq<Call>, n: nat, desired: seq<Key>) {
    && |log| > n && Fails(api, log)
    && var last := log[|log| - 1];
       || (last.Get? && last.key in desired)
       || (last.ListPods? && api(|log| - 1, last).Failure?)
  }

  /** One workload: whether it is ready, and if it is not, whether one of its pods is failing. */
  method CheckOne(api: Cluster, log0: seq<Call>, k: Key) returns (readiness: Readiness, log: seq<Call>)
    ensures log == log0 + [Get(k)] || (log == log0 + [Get(k), ListPods(k)] && Selects(api, log, |log0|, k))
    ensures readiness.AllReady? ==> api(|log0|, Get(k)).Found? && api(|log0|, Get(k)).obj.ready
    ensures readiness.Waiting? ==> api(|log0|, Get(k)).Found? && !api(|log0|, Get(k)).obj.ready
    ensures readiness.PodFailing? ==> log[|log| - 1].ListPods? && api(|log| - 1, log[|log| - 1]).Failing?
    ensures readiness.PodFailing? ==> api(|log0|, Get(k)).Found? && !api(|log0|, Get(k)).obj.ready
    ensures readiness.Unknown? ==>
      && Fails(api, log)
      && (log == log0 + [Get(k)] || (log[|log| - 1].ListPods? && api(|log| - 1, log[|log| - 1]).Failure?))
  {
    var answer := api(|log0|, Get(k));
    log := log0 + [Get(k)];
    if !answer.Found? {
      return Unknown, log;
    }
    if answer.obj.ready {
      return AllReady, log;
    }
    if answer.obj.selector.Malformed? {
      return Unknown, log;
    }
    if answer.obj.selector.Empty? {
      return Waiting, log;
    }
    answer := api(|log|, ListPods(k));
    log := log0 + [Get(k), ListPods(k)];
    return if answer.Failure? then Unknown else if answer.Failing? then PodFailing else Waiting, log;
  }

  /** Since call n, k was read and found ready. */
  ghost predicate ReadReady(api: Cluster, log: seq<Call>, n: nat, k: Key) {
    exists j: nat :: n <= j < |log| && log[j] == Get(k) && api(j, log[j]).Found? && api(j, log[j]).obj.ready
  }

  lemma ReadyStays(api: Cluster, log: seq<Call>, log': seq<Call>, n: nat, keys: seq<Key>)
    requires log <= log' && forall k :: k in keys && Workload(k) ==> ReadReady(api, log, n, k)
    ensures forall k :: k in keys && Workload(k) ==> ReadReady(api, log', n, k)
  {
    forall k | k in keys && Workload(k) ensures ReadReady(api, log', n, k) {
      var j: nat :| n <= j < |log| && log[j] == Get(k) && api(j, log[j]).Found? && api(j, log[j]).obj.ready;
      assert log'[j] == log[j];
    }
  }

  /** Since call n, the log only reads, and lists pods only where there is something to select them by. */
  ghost predicate OnlyChecks(api: Cluster, log: seq<Call>, n: nat) {
    && (forall i :: n <= i < |log| ==> log[i].Get? || log[i].ListPods?)
    && (forall i :: n <= i < |log| && log[i].ListPods? ==> i > n && Selects(api, log, i - 1, log[i].key))
  }

  lemma OneMoreCheck(api: Cluster, log: seq<Call>, log': seq<Call>, n: nat, k: Key)
    requires n <= |log| && OnlyChecks(api, log, n)
    requires log' == log + [Get(k)] || (log' == log + [Get(k), ListPods(k)] && Selects(api, log', |log|, k))
    ensures OnlyChecks(api, log', n) && (SeenUnready(api, log, n) ==> SeenUnready(api, log', n))
  {
    forall i | n <= i < |log'| && log'[i].ListPods? ensures i > n && Selects(api, log', i - 1, log'[i].key) {
      if i < |log| { assert log'[i] == log[i] && Selects(api, log, i - 1, log[i].key); }
    }
    if SeenUnready(api, log, n) {
      var j: nat :| n <= j < |log| && log[j].Get? && api(j, log[j]).Found? && !api(j, log[j]).obj.ready;
      assert log'[j] == log[j];
    }
  }

  method CheckReady(api: Cluster, log0: seq<Call>, desired: seq<Key>) returns (readiness: Readiness, log: seq<Call>)
    ensures log0 <= log && OnlyChecks(api, log, |log0|)
    ensures readiness.AllReady? ==> forall k :: k in desired && Workload(k) ==> ReadReady(api, log, |log0|, k)
    ensures readiness.Waiting? ==> SeenUnready(api, log, |log0|)
    ensures readiness.PodFailing? ==>
      |log| > |log0| && log[|log| - 1].ListPods? && api(|log| - 1, log[|log| - 1]).Failing?
    ensures readiness.PodFailing? ==> SeenUnready(api, log, |log0|)
    ensures readiness.Unknown? ==> |log| > |log0| && Fails(api, log)
    ensures readiness.Unknown? ==> Hidden(api, log, |log0|, desired)
  {
    log := log0;
    var ready := true;
    for m := 0 to |desired|
      invariant log0 <= log && OnlyChecks(api, log, |log0|)
      invariant !ready ==> SeenUnready(api, log, |log0|)
      invariant ready ==> forall k :: k in desired[..m] && Workload(k) ==> ReadReady(api, log, |log0|, k)
    {
      var k := desired[m];
      if !Workload(k) {
        continue;
      }
      ghost var before := log;
      var one;
      one, log := CheckOne(api, log, k);
      OneMoreCheck(api, before, log, |log0|, k);
      assert log[|before|] == Get(k);
      if one.AllReady? {
        if ready { ReadyStays(api, before, log, |log0|, desired[..m]); }
        continue;
      }
      if !one.Waiting? {
        return one, log;
      }
      ready := false;
    }
    return if ready then AllReady else Waiting, log;
  }

  // --------------------------------------------------------- reconcile pass

  /** The preflight of the log read every desired object and found none of another owner. */
  ghost predicate Preflighted(api: Cluster, cr: CR, log: seq<Call>, desired: seq<Key>) {
    |desired| <= |log| && forall i: nat :: i < |desired| ==> log[i] == Get(desired[i]) && Harmless(api, cr, log, i)
  }

  lemma ReadsAreProper(api: Cluster, cr: CR, log: seq<Call>, log': seq<Call>)
    requires log <= log' && AllProper(api, cr, log)
    requires forall i :: |log| <= i < |log'| ==> log'[i].Get? || log'[i].ListPods?
    ensures AllProper(api, cr, log')
  {
    forall i: nat | i < |log'| ensures Proper(api, cr, log', i) {
      if i < |log| { ProperExtends(api, cr, log, log', i); }
    }
  }

  lemma PreflightStands(api: Cluster, cr: CR, log: seq<Call>, log': seq<Call>, desired: seq<Key>)
    requires log <= log' && Preflighted(api, cr, log, desired)
    ensures Preflighted(api, cr, log', desired)
  {
    forall i: nat | i < |desired| ensures log'[i] == Get(desired[i]) && Harmless(api, cr, log', i) {
      assert Harmless(api, cr, log, i) && log'[i] == log[i];
    }
  }

  /** Every workload was read ready, by a call after the last change. */
  ghost predicate SeenReady(api: Cluster, log: seq<Call>, desired: seq<Key>) {
    exists n: nat :: n <= |log| && NoChange(log, n) &&
      forall k :: k in desired && Workload(k) ==> ReadReady(api, log, n, k)
  }

  /** Every desired key went through a create or a patch. */
  ghost predicate AllApplied(api: Cluster, log: seq<Call>, desired: seq<Key>) {
    forall k :: k in desired ==> Applied(api, log, k)
  }

  /** The readiness reads change nothing that the applies established. */
  lemma ReadsKeep(api: Cluster, cr: CR, n: nat, applied: seq<Call>, log: seq<Call>, desired: seq<Key>)
    requires n <= |applied| && applied <= log && AllProper(api, cr, applied) && WorkloadsChangeLast(applied, n)
    requires forall i :: |applied| <= i < |log| ==> log[i].Get? || log[i].ListPods?
    requires forall i :: n <= i < |applied| ==>
      !applied[i].AddFinalizer? && (Changes(applied[i]) ==> !applied[i].Delete? && applied[i].key in desired)
    ensures AllProper(api, cr, log) && WorkloadsChangeLast(log, n) && NoChange(log, |applied|)
    ensures forall i :: n <= i < |log| ==>
      !log[i].AddFinalizer? && (Changes(log[i]) ==> !log[i].Delete? && log[i].key in desired)
    ensures AllApplied(api, applied, desired) ==> AllApplied(api, log, desired)
  {
    ReadsAreProper(api, cr, applied, log);
    assert forall i :: 0 <= i < |applied| ==> log[i] == applied[i];
    if AllApplied(api, applied, desired) { AppliedStays(api, applied, log, desired); }
  }

  lemma SameKeys(desired: seq<Key>)
    ensures forall k :: k in WorkloadsLast(desired) <==> k in desired
    ensures forall i, j :: 0 <= i < j < |WorkloadsLast(desired)| && Workload(WorkloadsLast(desired)[i]) ==>
      Workload(WorkloadsLast(desired)[j])
  {
    WorkloadsLastIsOrdered(desired);
    forall k ensures k in WorkloadsLast(desired) <==> k in desired {
      assert k in multiset(WorkloadsLast(desired)) <==> k in multiset(desired);
    }
  }

  lemma UnreadyFrom(api: Cluster, log: seq<Call>, n: nat, m: nat)
    requires SeenUnready(api, log, n) && m <= n
    ensures SeenUnready(api, log, m)
  {
  }

  /** What the pass returns without going on to the operands. */
  function StoppedAt(gate: Gate): Outcome
    requires !gate.Passed?
  {
    match gate
    case CrMissing => Quiet
    case CrUnreadable => Errored
    case RenderFails => Errored
    case InvalidSpec => Reported(false, false, "InvalidConfiguration")
    case NoSecret => Reported(false, false, "CredentialsUnavailable")
    case BadSecret => Reported(false, false, "InvalidCredentials")
  }

  /** The last call listed the pods of a workload just seen not ready, and one of them is failing. */
  ghost predicate PodSeenFailing(api: Cluster, log: seq<Call>, n: nat) {
    && |log| > n && log[|log| - 1].ListPods? && api(|log| - 1, log[|log| - 1]).Failing?
    && SeenUnready(api, log, n)
  }

  /** Each reason comes with its flags. */
  predicate Fits(o: Outcome)
    requires o.Reported?
  {
    && (o.available <==> o.reason == "Ready") && (o.progressing <==> o.reason == "RollingOut")
    && o.reason in {"Ready", "RollingOut", "WorkloadFailing", "ReconcileFailed", "OwnershipConflict",
                    "InvalidConfiguration", "CredentialsUnavailable", "InvalidCredentials"}
  }

  lemma AppliedWasThere(api: Cluster, cr: CR, log: seq<Call>, k: Key, log': seq<Call>, i: nat)
    requires AllProper(api, cr, log) && Applied(api, log, k) && log <= log' && |log| <= i < |log'|
    ensures ThereBefore(api, log', i, k)
  {
    var j: nat :| j < |log| && (log[j].Create? || log[j].Patch?) && log[j].key == k && api(j, log[j]).Found?;
    assert log'[j] == log[j];
    if log[j].Patch? {
      assert Proper(api, cr, log, j);
      var u := log[j].uid;
      var m: nat :| m < j <= |log| && log[m] == Get(k) && api(m, log[m]).Found? && api(m, log[m]).obj.uid == u &&
        (OwnedBy(api(m, log[m]).obj, cr) || Reread(log, m));
      assert log'[m] == Get(k);
    } else {
      assert log[j] == Create(k);
    }
  }

  /** A check that cannot go on, after every operand was applied, got a bad answer. */
  lemma HiddenIsBad(api: Cluster, cr: CR, applied: seq<Call>, log: seq<Call>, desired: seq<Key>)
    requires AllProper(api, cr, applied) && AllApplied(api, applied, desired) && applied <= log
    requires Hidden(api, log, |applied|, desired)
    ensures AnsweredBadly(api, cr, log)
  {
    var n := |log| - 1;
    if log[n].Get? {
      AppliedWasThere(api, cr, applied, log[n].key, log, n);
    }
    BadLast(api, cr, log);
  }

  /** The part of a pass behind the preflight: apply in order, then look whether the workloads are ready. */
  method RollOut(api: Cluster, cr: CR, log0: seq<Call>, desired: seq<Key>) returns (outcome: Outcome, log: seq<Call>)
    requires Honest(api) && AllProper(api, cr, log0)
    ensures log0 <= log && AllProper(api, cr, log) && WorkloadsChangeLast(log, |log0|)
    ensures forall i :: |log0| <= i < |log| ==>
      !log[i].AddFinalizer? && (Changes(log[i]) ==> !log[i].Delete? && log[i].key in desired)
    ensures outcome.Reported? ==> !(outcome.available && outcome.progressing) && outcome.reason != "OwnershipConflict"
    ensures outcome.Reported? && outcome.available ==> SeenReady(api, log, desired)
    ensures !outcome.Quiet?
    ensures var (ok, applied) := ApplyAllSpec(api, cr, log0, WorkloadsLast(desired));
            if !ok then outcome == Reported(false, false, "ReconcileFailed") && log == applied
            else
              && AllApplied(api, log, desired)
              && (outcome.Reported? ==> outcome.reason in {"Ready", "RollingOut", "WorkloadFailing"})
    ensures outcome.Reported? && outcome.reason == "ReconcileFailed" ==>
      !ApplyAllSpec(api, cr, log0, WorkloadsLast(desired)).0
    ensures outcome.Reported? && outcome.progressing ==> SeenUnready(api, log, |log0|)
    ensures outcome.Errored? ==> Fails(api, log)
    ensures outcome.Errored? || (outcome.Reported? && outcome.reason == "ReconcileFailed") ==>
      AnsweredBadly(api, cr, log)
    ensures outcome.Reported? && outcome.reason == "WorkloadFailing" ==> PodSeenFailing(api, log, |log0|)
    ensures outcome.Reported? ==> Fits(outcome)
  {
    SameKeys(desired);
    var ok;
    ok, log := ApplyAll(api, cr, log0, WorkloadsLast(desired));
    if !ok {
      return Reported(false, false, "ReconcileFailed"), log;
    }
    ghost var applied := log;
    var readiness;
    readiness, log := CheckReady(api, log, desired);
    ReadsKeep(api, cr, |log0|, applied, log, desired);
    if readiness.Waiting? || readiness.PodFailing? { UnreadyFrom(api, log, |applied|, |log0|); }
    match readiness {
      case Unknown =>
        HiddenIsBad(api, cr, applied, log, desired);
        return Errored, log;
      case PodFailing => return Reported(false, false, "WorkloadFailing"), log;
      case Waiting => return Reported(false, true, "RollingOut"), log;
      case AllReady => return Reported(true, false, "Ready"), log;
    }
  }

  /** Reads, and the finalizer if it was missing, come before every change. */
  lemma ChangesFollow(start: seq<Call>, log: seq<Call>, desired: seq<Key>)
    requires start <= log && NoChange(start, 0) && WorkloadsChangeLast(log, |start|)
    requires forall i :: |start| <= i < |log| && Changes(log[i]) ==> !log[i].Delete? && log[i].key in desired
    ensures WorkloadsChangeLast(log, 0)
    ensures forall i :: 0 <= i < |log| && Changes(log[i]) ==> !log[i].Delete? && log[i].key in desired
    ensures start != [] && start[|start| - 1].AddFinalizer? ==>
      forall i :: 0 <= i < |log| && Changes(log[i]) ==> AddFinalizer in log[..i]
  {
    assert forall i :: 0 <= i < |start| ==> log[i] == start[i];
    forall i | start != [] && start[|start| - 1].AddFinalizer? && 0 <= i < |log| && Changes(log[i])
      ensures AddFinalizer in log[..i]
    {
      assert log[..i][|start| - 1] == AddFinalizer;
    }
  }

  /** The finalizer, if it is missing, and then the operands. */
  method Install(api: Cluster, cr: CR, preflight: seq<Call>, desired: seq<Key>)
    returns (outcome: Outcome, log: seq<Call>)
    requires Honest(api) && |preflight| == |desired| && Preflighted(api, cr, preflight, desired)
    ensures AllProper(api, cr, log) && Preflighted(api, cr, log, desired) && WorkloadsChangeLast(log, 0)
    ensures forall i :: 0 <= i < |log| && Changes(log[i]) ==> !log[i].Delete? && log[i].key in desired
    ensures !cr.hasFinalizer ==> forall i :: 0 <= i < |log| && Changes(log[i]) ==> AddFinalizer in log[..i]
    ensures !outcome.Quiet?
    ensures outcome.Errored? ==> Fails(api, log)
    ensures outcome.Reported? ==> !(outcome.available && outcome.progressing) && outcome.reason != "OwnershipConflict"
    ensures outcome.Reported? && outcome.available ==> SeenReady(api, log, desired)
    ensures outcome.Reported? && outcome.progressing ==> SeenUnready(api, log, |desired|)
    ensures outcome.Reported? && outcome.reason != "ReconcileFailed" ==> AllApplied(api, log, desired)
    ensures outcome.Errored? || (outcome.Reported? && outcome.reason == "ReconcileFailed") ==>
      AnsweredBadly(api, cr, log)
    ensures outcome.Reported? && outcome.reason == "WorkloadFailing" ==> PodSeenFailing(api, log, |desired|)
    ensures outcome.Reported? ==> Fits(outcome)
    ensures outcome.Reported? ==> outcome.reason in {"Ready", "RollingOut", "WorkloadFailing", "ReconcileFailed"}
  {
    log := preflight;
    if !cr.hasFinalizer {
      var answer := api(|log|, AddFinalizer);
      log := log + [AddFinalizer];
      PreflightStands(api, cr, preflight, log, desired);
      if !answer.Found? {
        BadLast(api, cr, log);
        return Errored, log;
      }
    }
    ghost var start := log;
    outcome, log := RollOut(api, cr, log, desired);
    PreflightStands(api, cr, start, log, desired);
    ChangesFollow(start, log, desired);
    if SeenUnready(api, log, |start|) { UnreadyFrom(api, log, |start|, |desired|); }
  }

  /**
   * One pass over a resource that is not being deleted. Whatever the cluster
   * answers: every operand call goes to the object the pass read, as owned
   * (or by the one re-read that does not check); nothing is deleted; a
   * foreign object seen in the preflight means nothing at all is changed; no
   * other kind is changed after a workload; the finalizer is in place before
   * the first change; a progress report means every operand was applied; and
   * Available is reported only when every workload was read ready after the
   * last change. And against a cluster with good answers throughout, every
   * operand is applied and, once no workload is seen unready, the pass is Ready.
   */
  method ReconcileOnce(api: Cluster, cr: CR, gate: Gate, desired: seq<Key>) returns (outcome: Outcome, log: seq<Call>)
    requires Honest(api)
    ensures AllProper(api, cr, log)
    ensures forall i :: 0 <= i < |log| && Changes(log[i]) ==> !log[i].Delete? && log[i].key in desired
    ensures (exists i :: 0 <= i < |log| && (Changes(log[i]) || log[i].AddFinalizer?)) ==>
      gate.Passed? && Preflighted(api, cr, log, desired)
    ensures outcome.Reported? && outcome.reason == "OwnershipConflict" ==> forall i :: 0 <= i < |log| ==> log[i].Get?
    ensures WorkloadsChangeLast(log, 0)
    ensures !cr.hasFinalizer ==> forall i :: 0 <= i < |log| && Changes(log[i]) ==> AddFinalizer in log[..i]
    ensures outcome.Reported? ==> !(outcome.available && outcome.progressing)
    ensures outcome.Reported? && outcome.available ==> SeenReady(api, log, desired)
    ensures outcome.Quiet? <==> gate.CrMissing?
    ensures outcome.Errored? ==>
      gate.CrUnreadable? || gate.RenderFails? || Fails(api, log)
    ensures outcome.Reported? && outcome.reason in {"Ready", "RollingOut", "WorkloadFailing"} ==>
      AllApplied(api, log, desired)
    ensures outcome.Reported? && outcome.progressing ==> SeenUnready(api, log, |desired|)
    ensures outcome.Reported? && outcome.reason == "WorkloadFailing" ==> PodSeenFailing(api, log, |desired|)
    ensures outcome.Reported? ==> Fits(outcome)
    ensures !gate.Passed? ==> log == [] && outcome == StoppedAt(gate)
    ensures gate.Passed? && !AnsweredBadly(api, cr, log) ==>
      && outcome.Reported? && AllApplied(api, log, desired)
      && (SeenUnready(api, log, |desired|) || outcome == Reported(true, false, "Ready"))
  {
    log := [];
    match gate {
      case CrMissing => return Quiet, log;
      case CrUnreadable => return Errored, log;
      case InvalidSpec => return Reported(false, false, "InvalidConfiguration"), log;
      case NoSecret => return Reported(false, false, "CredentialsUnavailable"), log;
      case BadSecret => return Reported(false, false, "InvalidCredentials"), log;
      case RenderFails => return Errored, log;
      case Passed =>
    }
    var verdict;
    verdict, log := Preflight(api, cr, desired);
    if verdict.CannotTell? {
      return Errored, log;
    }
    if verdict.Conflict? {
      return Reported(false, false, "OwnershipConflict"), log;
    }
    outcome, log := Install(api, cr, log, desired);
  }

  // ----------------------------------------------------------- cleanup pass

  /** The pass read an operand of ours, workload or not as asked. */
  ghost predicate SawOwned(api: Cluster, cr: CR, log: seq<Call>, workload: bool) {
    exists j: nat :: j < |log| && log[j].Get? && Workload(log[j].key) == workload &&
      ReadOwned(api, cr, log, j, log[j].key)
  }

  /** Every object of the kind was read, and found gone or foreign. */
  ghost predicate NoneLeft(api: Cluster, cr: CR, log: seq<Call>, keys: seq<Key>, workload: bool) {
    forall k :: k in keys && Workload(k) == workload ==>
      exists j: nat :: j < |log| && log[j] == Get(k) &&
        (api(j, log[j]).NotFound? || (api(j, log[j]).Found? && !OwnedBy(api(j, log[j]).obj, cr)))
  }

  lemma ProperGrows(api: Cluster, cr: CR, log: seq<Call>, c: Call)
    requires AllProper(api, cr, log) && Proper(api, cr, log + [c], |log|)
    ensures AllProper(api, cr, log + [c])
  {
    forall i: nat | i < |log| ensures Proper(api, cr, log + [c], i) {
      ProperExtends(api, cr, log, log + [c], i);
    }
  }

  lemma SeenGrows(api: Cluster, cr: CR, log: seq<Call>, c: Call, keys: seq<Key>, w: bool)
    ensures SawOwned(api, cr, log, w) ==> SawOwned(api, cr, log + [c], w)
    ensures SawOwned(api, cr, log + [c], w) ==>
      SawOwned(api, cr, log, w) ||
        (c.Get? && Workload(c.key) == w && api(|log|, c).Found? && OwnedBy(api(|log|, c).obj, cr))
    ensures NoneLeft(api, cr, log, keys, w) ==> NoneLeft(api, cr, log + [c], keys, w)
  {
    var log' := log + [c];
    assert forall j :: 0 <= j < |log| ==> log'[j] == log[j];
    if SawOwned(api, cr, log, w) {
      var j: nat :| j < |log| && log[j].Get? && Workload(log[j].key) == w && ReadOwned(api, cr, log, j, log[j].key);
      assert ReadOwned(api, cr, log', j, log'[j].key);
    }
    if SawOwned(api, cr, log', w) && !SawOwned(api, cr, log, w) {
      var j: nat :| j < |log'| && log'[j].Get? && Workload(log'[j].key) == w &&
        ReadOwned(api, cr, log', j, log'[j].key);
      assert j < |log| ==> ReadOwned(api, cr, log, j, log[j].key);
    }
  }

  /** The j-th call read an operand of ours that is not yet being deleted. */
  ghost predicate Due(api: Cluster, cr: CR, log: seq<Call>, j: nat)
    requires j < |log|
  {
    log[j].Get? && ReadOwned(api, cr, log, j, log[j].key) && !api(j, log[j]).obj.deleting
  }

  /** Every operand read as ours, from call n on, and not yet being deleted is deleted by the next call. */
  ghost predicate Deletes(api: Cluster, cr: CR, log: seq<Call>, n: nat) {
    forall j: nat :: n <= j < |log| && Due(api, cr, log, j) ==>
      j + 1 < |log| && log[j + 1] == Delete(log[j].key, api(j, log[j]).obj.uid)
  }

  lemma DeletesJoin(api: Cluster, cr: CR, log: seq<Call>, log': seq<Call>, n: nat)
    requires n <= |log| && log <= log' && Deletes(api, cr, log, n) && Deletes(api, cr, log', |log|)
    ensures Deletes(api, cr, log', n)
  {
    assert forall j :: 0 <= j < |log| ==> log'[j] == log[j];
    forall j: nat | n <= j < |log| && Due(api, cr, log', j)
      ensures j + 1 < |log'| && log'[j + 1] == Delete(log'[j].key, api(j, log'[j]).obj.uid)
    {
      assert Due(api, cr, log, j);
    }
  }

  /** What one more call adds to the pass's knowledge. */
  lemma Noted(api: Cluster, cr: CR, log: seq<Call>, c: Call, keys: seq<Key>, done: seq<Key>, w: bool)
    requires AllProper(api, cr, log) && Proper(api, cr, log + [c], |log|) && (c.Get? ==> Workload(c.key) == w)
    ensures AllProper(api, cr, log + [c])
    ensures SawOwned(api, cr, log + [c], !w) <==> SawOwned(api, cr, log, !w)
    ensures SawOwned(api, cr, log + [c], w) <==>
      SawOwned(api, cr, log, w) || (c.Get? && api(|log|, c).Found? && OwnedBy(api(|log|, c).obj, cr))
    ensures NoneLeft(api, cr, log, keys, !w) ==> NoneLeft(api, cr, log + [c], keys, !w)
    ensures NoneLeft(api, cr, log, done, w) ==> NoneLeft(api, cr, log + [c], done, w)
  {
    ProperGrows(api, cr, log, c);
    SeenGrows(api, cr, log, c, keys, !w);
    SeenGrows(api, cr, log, c, done, w);
    if c.Get? && api(|log|, c).Found? && OwnedBy(api(|log|, c).obj, cr) {
      assert ReadOwned(api, cr, log + [c], |log|, c.key);
    }
  }

  /** One operand of cleanup: whether it failed, whether it is ours, and the calls made. */
  function RemoveSpec(api: Cluster, cr: CR, log: seq<Call>, k: Key): (bool, bool, seq<Call>) {
    var answer := api(|log|, Get(k));
    var read := log + [Get(k)];
    if !answer.Found? then (!answer.NotFound?, false, read)
    else if !OwnedBy(answer.obj, cr) then (false, false, read)
    else if answer.obj.deleting then (false, true, read)
    else
      var gone := Delete(k, answer.obj.uid);
      (api(|read|, gone).Failure?, true, read + [gone])
  }

  lemma RemovalIsNoted(api: Cluster, cr: CR, log: seq<Call>, keys: seq<Key>, done: seq<Key>, k: Key)
    requires AllProper(api, cr, log)
    ensures var (failed, owned, log') := RemoveSpec(api, cr, log, k);
            && AllProper(api, cr, log')
            && (SawOwned(api, cr, log', !Workload(k)) <==> SawOwned(api, cr, log, !Workload(k)))
            && (SawOwned(api, cr, log', Workload(k)) <==> SawOwned(api, cr, log, Workload(k)) || owned)
            && (NoneLeft(api, cr, log, keys, !Workload(k)) ==> NoneLeft(api, cr, log', keys, !Workload(k)))
            && (!failed && !owned && NoneLeft(api, cr, log, done, Workload(k)) ==>
                  NoneLeft(api, cr, log', done + [k], Workload(k)))
  {
    var answer := api(|log|, Get(k));
    var read := log + [Get(k)];
    Noted(api, cr, log, Get(k), keys, done, Workload(k));
    assert read[|log|] == Get(k);
    if answer.Found? && OwnedBy(answer.obj, cr) && !answer.obj.deleting {
      assert ReadOwned(api, cr, read, |log|, k);
      Noted(api, cr, read, Delete(k, answer.obj.uid), keys, done, Workload(k));
    }
  }

  lemma RemovalDeletes(api: Cluster, cr: CR, log: seq<Call>, k: Key)
    ensures Deletes(api, cr, RemoveSpec(api, cr, log, k).2, |log|)
  {
  }

  method RemoveOne(api: Cluster, cr: CR, log0: seq<Call>, ghost keys: seq<Key>, ghost done: seq<Key>, k: Key)
    returns (failed: bool, owned: bool, log: seq<Call>)
    requires AllProper(api, cr, log0)
    ensures AllProper(api, cr, log) && Deletes(api, cr, log, |log0|)
    ensures SawOwned(api, cr, log, !Workload(k)) <==> SawOwned(api, cr, log0, !Workload(k))
    ensures SawOwned(api, cr, log, Workload(k)) <==> SawOwned(api, cr, log0, Workload(k)) || owned
    ensures NoneLeft(api, cr, log0, keys, !Workload(k)) ==> NoneLeft(api, cr, log, keys, !Workload(k))
    ensures !failed && !owned && NoneLeft(api, cr, log0, done, Workload(k)) ==>
      NoneLeft(api, cr, log, done + [k], Workload(k))
    ensures log0 <= log
    ensures forall i :: |log0| <= i < |log| ==> (log[i].Get? || (log[i].Delete? && owned)) && log[i].key == k
    ensures failed ==> log != [] && (api(|log| - 1, log[|log| - 1]).Failure? || api(|log| - 1, log[|log| - 1]).Failing?)
  {
    RemovalIsNoted(api, cr, log0, keys, done, k);
    RemovalDeletes(api, cr, log0, k);
    var answer := api(|log0|, Get(k));
    log := log0 + [Get(k)];
    if answer.NotFound? {
      return false, false, log;
    }
    if !answer.Found? {
      return true, false, log;
    }
    if !OwnedBy(answer.obj, cr) {
      return false, false, log;
    }
    failed, owned := false, true;
    if !answer.obj.deleting {
      var deleted := api(|log|, Delete(k, answer.obj.uid));
      log := log + [Delete(k, answer.obj.uid)];
      failed := deleted.Failure?;
    }
  }

  /** Delete what is ours among the keys of one kind; `pending` when there was any. */
  method RemoveKind(api: Cluster, cr: CR, log0: seq<Call>, keys: seq<Key>, workloads: bool)
    returns (failed: bool, pending: bool, log: seq<Call>)
    requires AllProper(api, cr, log0) && !SawOwned(api, cr, log0, workloads)
    ensures log0 <= log && AllProper(api, cr, log)
    ensures forall i :: |log0| <= i < |log| ==>
      (log[i].Get? || log[i].Delete?) && log[i].key in keys && Workload(log[i].key) == workloads
    ensures pending <==> SawOwned(api, cr, log, workloads)
    ensures SawOwned(api, cr, log, !workloads) <==> SawOwned(api, cr, log0, !workloads)
    ensures !pending ==> NoChange(log, |log0|)
    ensures !failed && !pending ==> NoneLeft(api, cr, log, keys, workloads)
    ensures Deletes(api, cr, log, |log0|)
    ensures failed ==> log != [] && (api(|log| - 1, log[|log| - 1]).Failure? || api(|log| - 1, log[|log| - 1]).Failing?)
    ensures NoneLeft(api, cr, log0, keys, !workloads) ==> NoneLeft(api, cr, log, keys, !workloads)
  {
    log, pending := log0, false;
    for m := 0 to |keys|
      invariant log0 <= log && AllProper(api, cr, log)
      invariant forall i :: |log0| <= i < |log| ==>
        (log[i].Get? || (log[i].Delete? && pending)) && log[i].key in keys && Workload(log[i].key) == workloads
      invariant pending <==> SawOwned(api, cr, log, workloads)
      invariant SawOwned(api, cr, log, !workloads) <==> SawOwned(api, cr, log0, !workloads)
      invariant !pending ==> NoneLeft(api, cr, log, keys[..m], workloads)
      invariant Deletes(api, cr, log, |log0|)
      invariant NoneLeft(api, cr, log0, keys, !workloads) ==> NoneLeft(api, cr, log, keys, !workloads)
    {
      assert keys[..m + 1] == keys[..m] + [keys[m]];
      if Workload(keys[m]) != workloads {
        continue;
      }
      var owned;
      ghost var before := log;
      failed, owned, log := RemoveOne(api, cr, log, keys, keys[..m], keys[m]);
      DeletesJoin(api, cr, before, log, |log0|);
      pending := pending || owned;
      if failed {
        return true, pending, log;
      }
    }
    assert keys[..|keys|] == keys;
    failed := false;
  }

  lemma FinalizerGoes(api: Cluster, cr: CR, log: seq<Call>, keys: seq<Key>)
    requires AllProper(api, cr, log) && Deletes(api, cr, log, 0) && NoneLeft(api, cr, log, keys, true) &&
      NoneLeft(api, cr, log, keys, false)
    requires !SawOwned(api, cr, log, true) && !SawOwned(api, cr, log, false)
    ensures var log' := log + [RemoveFinalizer];
            && AllProper(api, cr, log') && Deletes(api, cr, log', 0)
            && NoneLeft(api, cr, log', keys, true) && NoneLeft(api, cr, log', keys, false)
            && !SawOwned(api, cr, log', true) && !SawOwned(api, cr, log', false)
  {
    SeenGrows(api, cr, log, RemoveFinalizer, keys, true);
    SeenGrows(api, cr, log, RemoveFinalizer, keys, false);
    ProperGrows(api, cr, log, RemoveFinalizer);
    DeletesJoin(api, cr, log, log + [RemoveFinalizer], 0);
  }

  /** Workloads first, and the other kinds only when no workload of ours was seen. */
  method RemoveAll(api: Cluster, cr: CR, keys: seq<Key>) returns (failed: bool, pending: bool, log: seq<Call>)
    ensures AllProper(api, cr, log) && Deletes(api, cr, log, 0)
    ensures forall i :: 0 <= i < |log| ==> (log[i].Get? || log[i].Delete?) && log[i].key in keys
    ensures SawOwned(api, cr, log, true) ==> forall i :: 0 <= i < |log| && log[i].Delete? ==> Workload(log[i].key)
    ensures pending <==> SawOwned(api, cr, log, true) || SawOwned(api, cr, log, false)
    ensures !pending ==> NoChange(log, 0)
    ensures !failed && !pending ==> NoneLeft(api, cr, log, keys, true) && NoneLeft(api, cr, log, keys, false)
    ensures failed ==> log != [] && !api(|log| - 1, log[|log| - 1]).Found?
  {
    failed, pending, log := RemoveKind(api, cr, [], keys, true);
    if !failed && !pending {
      ghost var workloads := log;
      failed, pending, log := RemoveKind(api, cr, log, keys, false);
      DeletesJoin(api, cr, workloads, log, 0);
    }
  }

  /**
   * One pass over a resource that is being deleted. Whatever the cluster
   * answers: only objects just read as owned are deleted, by their UID; no
   * other kind is deleted in a pass that saw an owned workload; every owned
   * object that was read and is not yet going is deleted; and the
   * finalizer goes, as the last call, only from a pass that read every operand
   * and found none of ours.
   */
  method Cleanup(api: Cluster, cr: CR, renders: bool, keys: seq<Key>) returns (outcome: Outcome, log: seq<Call>)
    ensures AllProper(api, cr, log)
    ensures !cr.hasFinalizer ==> log == []
    ensures forall i :: 0 <= i < |log| ==>
      ((log[i].Get? || log[i].Delete?) && log[i].key in keys) || (log[i].RemoveFinalizer? && i == |log| - 1)
    ensures SawOwned(api, cr, log, true) ==> forall i :: 0 <= i < |log| && log[i].Delete? ==> Workload(log[i].key)
    ensures RemoveFinalizer in log ==>
      NoChange(log, 0) && NoneLeft(api, cr, log, keys, true) && NoneLeft(api, cr, log, keys, false)
    ensures Deletes(api, cr, log, 0)
    ensures outcome.Reported? <==> outcome == Reported(false, true, "Removing")
    ensures outcome.Errored? ==> !renders || (log != [] && !api(|log| - 1, log[|log| - 1]).Found?)
    ensures cr.hasFinalizer && renders && outcome.Quiet? ==> RemoveFinalizer in log
    ensures RemoveFinalizer in log || outcome.Reported? ==>
              (outcome.Reported? <==> SawOwned(api, cr, log, true) || SawOwned(api, cr, log, false))
  {
    log := [];
    if !cr.hasFinalizer {
      return Quiet, log;
    }
    if !renders {
      return Errored, log;
    }
    var failed, pending;
    failed, pending, log := RemoveAll(api, cr, keys);
    if failed {
      return Errored, log;
    }
    if pending {
      return Reported(false, true, "Removing"), log;
    }
    FinalizerGoes(api, cr, log, keys);
    var answer := api(|log|, RemoveFinalizer);
    log := log + [RemoveFinalizer];
    return if answer.Found? then Quiet else Errored, log;
  }
}
