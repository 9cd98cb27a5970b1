/**
 * The operator's reconcile and cleanup passes
 * (operator/internal/operator/reconcile.go).
 *
 * A pass talks to a cluster that anybody may change between two calls. So the
 * cluster is not a state here: it is a function that answers the i-th call of
 * the pass, and every claim is made for every such function. Patch carries the
 * UID in its body and Delete as a precondition, which the API server checks,
 * so the object a call goes to is the one with that UID or none.
 */
module Reconcile {
  import opened Wrappers

  type Uid = string

  datatype Key = Key(kind: string, name: string)

  datatype OwnerRef = OwnerRef(uid: Uid, apiVersion: string, kind: string, controller: Option<bool>)

  /** Whether managedFields need handing over to server-side apply; Unreadable makes csaupgrade fail. */
  datatype Managed = Current | Outdated | Unreadable

  /** The labels a workload selects its pods by: none, not readable, or some. */
  datatype Selector = Empty | Malformed | Labels

  datatype Obj = Obj(uid: Uid, owners: seq<OwnerRef>, deleting: bool, ready: bool, selector: Selector, managed: Managed)

  datatype CR = CR(uid: Uid, apiVersion: string, kind: string, hasFinalizer: bool)

  datatype Call =
    | Get(key: Key)
    | Create(key: Key)
    | Upgrade(key: Key, uid: Uid)      // JSON patch that tests the resourceVersion just read
    | Patch(key: Key, uid: Uid)        // forced server-side apply with metadata.uid
    | Delete(key: Key, uid: Uid)       // with a UID precondition
    | ListPods(key: Key)
    | AddFinalizer
    | RemoveFinalizer

  datatype Reply = NotFound | Failure | Found(obj: Obj) | Failing

  type Cluster = (nat, Call) -> Reply

  const UPGRADE_ATTEMPTS := 3

  predicate Workload(k: Key) {
    k.kind == "StatefulSet" || k.kind == "DaemonSet"
  }

  predicate OwnedBy(o: Obj, cr: CR) {
    exists i :: 0 <= i < |o.owners| && o.owners[i] == OwnerRef(cr.uid, cr.apiVersion, cr.kind, Some(true))
  }

  /** ownedBy, owner by owner. */
  method CheckOwner(o: Obj, cr: CR) returns (owned: bool)
    ensures owned <==> OwnedBy(o, cr)
    ensures owned <==> exists i :: 0 <= i < |o.owners| && OwnedThrough(o.owners[i], cr)
  {
    for i := 0 to |o.owners|
      invariant forall j :: 0 <= j < i ==> !OwnedThrough(o.owners[j], cr)
    {
      if OwnedThrough(o.owners[i], cr) {
        return true;
      }
    }
    return false;
  }

  /** A call that changes an operand. */
  predicate Changes(c: Call) {
    c.Create? || c.Upgrade? || c.Patch? || c.Delete?
  }

  /** A JSON patch that passed its resourceVersion test returns the object it was computed from. */
  ghost predicate Honest(api: Cluster) {
    forall i: nat, k: Key, u: Uid :: api(i, Upgrade(k, u)).Found? ==> api(i, Upgrade(k, u)).obj.uid == u
  }

  /** The j-th call read k, and found it owned by cr. */
  ghost predicate ReadOwned(api: Cluster, cr: CR, log: seq<Call>, j: nat, k: Key) {
    j < |log| && log[j] == Get(k) && api(j, log[j]).Found? && OwnedBy(api(j, log[j]).obj, cr)
  }

  /** The read that follows a refused upgrade; the code does not look at its owner again. */
  ghost predicate Reread(log: seq<Call>, j: nat) {
    0 < j < |log| && log[j].Get? && log[j - 1].Upgrade?
  }

  // ------------------------------------------------------------------ apply

  /** upgradeManagedFields, from its i-th attempt on. */
  function UpgradeSpec(api: Cluster, log: seq<Call>, k: Key, current: Obj, i: nat): (r: (Option<Obj>, seq<Call>))
    decreases UPGRADE_ATTEMPTS - i
  {
    if current.managed.Current? then (Some(current), log)
    else if current.managed.Unreadable? then (None, log)
    else
      var answer := api(|log|, Upgrade(k, current.uid));
      var log1 := log + [Upgrade(k, current.uid)];
      if answer.Found? then (Some(answer.obj), log1)
      else if i + 1 >= UPGRADE_ATTEMPTS then (None, log1)
      else
        var again := api(|log1|, Get(k));
        var log2 := log1 + [Get(k)];
        if again.Found? then UpgradeSpec(api, log2, k, again.obj, i + 1) else (None, log2)
  }

  function ApplySpec(api: Cluster, cr: CR, log: seq<Call>, k: Key): (r: (bool, seq<Call>)) {
    var answer := api(|log|, Get(k));
    var log1 := log + [Get(k)];
    if answer.NotFound? then (api(|log1|, Create(k)).Found?, log1 + [Create(k)])
    else if !answer.Found? || !OwnedBy(answer.obj, cr) then (false, log1)
    else
      var (upgraded, log2) := UpgradeSpec(api, log1, k, answer.obj, 0);
      if upgraded.None? then (false, log2)
      else (api(|log2|, Patch(k, upgraded.value.uid)).Found?, log2 + [Patch(k, upgraded.value.uid)])
  }

  /** Some earlier call of the pass read k with this UID, and found it owned unless that was a re-read. */
  ghost predicate Read(api: Cluster, cr: CR, log: seq<Call>, n: nat, k: Key, u: Uid) {
    exists j: nat :: j < n <= |log| && log[j] == Get(k) && api(j, log[j]).Found? && api(j, log[j]).obj.uid == u &&
      (OwnedBy(api(j, log[j]).obj, cr) || Reread(log, j))
  }

  /** The i-th call is one a pass of this operator may make. */
  ghost predicate Proper(api: Cluster, cr: CR, log: seq<Call>, i: nat)
    requires i < |log|
  {
    match log[i]
    case Patch(k, u) => Read(api, cr, log, i, k, u)
    case Upgrade(k, u) => Read(api, cr, log, i, k, u)
    case Create(k) => i > 0 && log[i - 1] == Get(k) && api(i - 1, log[i - 1]).NotFound?
    case Delete(k, u) =>
      i > 0 && ReadOwned(api, cr, log, i - 1, k) && api(i - 1, log[i - 1]).obj.uid == u &&
        !api(i - 1, log[i - 1]).obj.deleting
    case _ => true
  }

  /** The calls from n on are proper, and concern k only. */
  ghost predicate ProperFrom(api: Cluster, cr: CR, log: seq<Call>, n: nat, k: Key) {
    forall i: nat :: n <= i < |log| ==>
      Proper(api, cr, log, i) && (log[i].Get? || log[i].Create? || log[i].Upgrade? || log[i].Patch?) && log[i].key == k
  }

  lemma ProperExtends(api: Cluster, cr: CR, log: seq<Call>, log': seq<Call>, i: nat)
    requires log <= log' && i < |log| && Proper(api, cr, log, i)
    ensures Proper(api, cr, log', i)
  {
    if log[i].Patch? || log[i].Upgrade? {
      var k, u := log[i].key, log[i].uid;
      var j: nat :| j < i <= |log| && log[j] == Get(k) && api(j, log[j]).Found? && api(j, log[j]).obj.uid == u &&
        (OwnedBy(api(j, log[j]).obj, cr) || Reread(log, j));
      assert log'[j] == Get(k) && (Reread(log, j) ==> Reread(log', j));
    }
  }

  lemma ReadExtends(api: Cluster, cr: CR, log: seq<Call>, c: Call, n: nat, k: Key, u: Uid)
    requires n <= |log| && Read(api, cr, log, n, k, u)
    ensures Read(api, cr, log + [c], n + 1, k, u) && Read(api, cr, log + [c], n, k, u)
  {
    var j: nat :| j < n <= |log| && log[j] == Get(k) && api(j, log[j]).Found? && api(j, log[j]).obj.uid == u &&
      (OwnedBy(api(j, log[j]).obj, cr) || Reread(log, j));
    assert (log + [c])[j] == Get(k) && (Reread(log, j) ==> Reread(log + [c], j));
  }

  lemma ProperAppend(api: Cluster, cr: CR, log: seq<Call>, n: nat, k: Key, c: Call)
    requires ProperFrom(api, cr, log, n, k) && n <= |log|
    requires Proper(api, cr, log + [c], |log|) && (c.Get? || c.Create? || c.Upgrade? || c.Patch?) && c.key == k
    ensures ProperFrom(api, cr, log + [c], n, k)
  {
    forall i: nat | n <= i < |log| ensures Proper(api, cr, log + [c], i) {
      ProperExtends(api, cr, log, log + [c], i);
    }
  }

  lemma UpgradeCallIsProper(api: Cluster, cr: CR, log: seq<Call>, n: nat, k: Key, u: Uid)
    requires n <= |log| && ProperFrom(api, cr, log, n, k) && Read(api, cr, log, |log|, k, u)
    ensures var log1 := log + [Upgrade(k, u)]; ProperFrom(api, cr, log1, n, k) && Read(api, cr, log1, |log1|, k, u)
  {
    ReadExtends(api, cr, log, Upgrade(k, u), |log|, k, u);
    ProperAppend(api, cr, log, n, k, Upgrade(k, u));
  }

  lemma RereadIsProper(api: Cluster, cr: CR, log: seq<Call>, n: nat, k: Key)
    requires n <= |log| && ProperFrom(api, cr, log, n, k) && log != [] && log[|log| - 1].Upgrade?
    ensures var log1 := log + [Get(k)];
            ProperFrom(api, cr, log1, n, k) &&
              (api(|log|, Get(k)).Found? ==> Read(api, cr, log1, |log1|, k, api(|log|, Get(k)).obj.uid))
  {
    ProperAppend(api, cr, log, n, k, Get(k));
    var log1 := log + [Get(k)];
    assert log1[|log|] == Get(k) && Reread(log1, |log|);
  }

  lemma {:induction false} UpgradeIsProper(api: Cluster, cr: CR, log: seq<Call>, n: nat, k: Key, current: Obj, i: nat)
    requires Honest(api) && n <= |log| && ProperFrom(api, cr, log, n, k) && Read(api, cr, log, |log|, k, current.uid)
    ensures var r := UpgradeSpec(api, log, k, current, i);
            && log <= r.1 && ProperFrom(api, cr, r.1, n, k)
            && (r.0.Some? ==> Read(api, cr, r.1, |r.1|, k, r.0.value.uid))
    decreases UPGRADE_ATTEMPTS - i
  {
    if current.managed.Outdated? {
      var log1 := log + [Upgrade(k, current.uid)];
      var log2 := log1 + [Get(k)];
      RefusalIsProper(api, cr, log, n, k, current.uid);
      if !api(|log|, Upgrade(k, current.uid)).Found? && i + 1 < UPGRADE_ATTEMPTS && api(|log1|, Get(k)).Found? {
        UpgradeIsProper(api, cr, log2, n, k, api(|log1|, Get(k)).obj, i + 1);
      }
    }
  }

  lemma RefusalIsProper(api: Cluster, cr: CR, log: seq<Call>, n: nat, k: Key, u: Uid)
    requires n <= |log| && ProperFrom(api, cr, log, n, k) && Read(api, cr, log, |log|, k, u)
    ensures var log1 := log + [Upgrade(k, u)]; ProperFrom(api, cr, log1, n, k) && Read(api, cr, log1, |log1|, k, u)
    ensures var log1, log2 := log + [Upgrade(k, u)], log + [Upgrade(k, u)] + [Get(k)];
            && ProperFrom(api, cr, log2, n, k)
            && (api(|log1|, Get(k)).Found? ==> Read(api, cr, log2, |log2|, k, api(|log1|, Get(k)).obj.uid))
  {
    UpgradeCallIsProper(api, cr, log, n, k, u);
    RereadIsProper(api, cr, log + [Upgrade(k, u)], n, k);
  }

  lemma ApplyIsProper(api: Cluster, cr: CR, log: seq<Call>, k: Key)
    requires Honest(api)
    ensures var (_, log') := ApplySpec(api, cr, log, k);
            log <= log' && ProperFrom(api, cr, log', |log|, k)
  {
    var answer := api(|log|, Get(k));
    var log1 := log + [Get(k)];
    assert log1[|log|] == Get(k);
    if answer.NotFound? {
      ProperAppend(api, cr, log1, |log|, k, Create(k));
    } else if answer.Found? && OwnedBy(answer.obj, cr) {
      UpgradeIsProper(api, cr, log1, |log|, k, answer.obj, 0);
      var (upgraded, log2) := UpgradeSpec(api, log1, k, answer.obj, 0);
      if upgraded.Some? {
        ReadExtends(api, cr, log2, Patch(k, upgraded.value.uid), |log2|, k, upgraded.value.uid);
        ProperAppend(api, cr, log2, |log|, k, Patch(k, upgraded.value.uid));
      }
    }
  }

  // ------------------------------------------------ the unchecked re-read

  /** The last read of k in the log, at j, found the object with this UID. */
  ghost predicate LastRead(api: Cluster, log: seq<Call>, j: nat, k: Key, u: Uid) {
    && j < |log| && log[j] == Get(k) && api(j, log[j]).Found? && api(j, log[j]).obj.uid == u
    && forall i :: j < i < |log| ==> !log[i].Get?
  }

  lemma {:induction false} UpgradeFollowsLastRead(api: Cluster, log: seq<Call>, k: Key, current: Obj, i: nat, j: nat)
    returns (j': nat)
    requires Honest(api) && LastRead(api, log, j, k, current.uid)
    ensures var r := UpgradeSpec(api, log, k, current, i);
            r.0.Some? ==>
              && log <= r.1 && LastRead(api, r.1, j', k, r.0.value.uid)
              && (j' == j || (j' >= |log| && Reread(r.1, j')))
    decreases UPGRADE_ATTEMPTS - i
  {
    j' := j;
    if current.managed.Outdated? {
      var log1 := log + [Upgrade(k, current.uid)];
      if !api(|log|, Upgrade(k, current.uid)).Found? && i + 1 < UPGRADE_ATTEMPTS && api(|log1|, Get(k)).Found? {
        var log2 := log1 + [Get(k)];
        assert Reread(log2, |log1|);
        j' := UpgradeFollowsLastRead(api, log2, k, api(|log1|, Get(k)).obj, i + 1, |log1|);
      }
    }
  }

  /**
   * The patch of apply goes to the object its own last read found. That read
   * was checked for its owner unless it followed a refused upgrade: so apply
   * patches an object it did not see owned only when its last read was such a
   * re-read and found somebody else's.
   */
  lemma PatchFollowsLastRead(api: Cluster, cr: CR, log: seq<Call>, k: Key) returns (j: nat)
    requires Honest(api)
    ensures var (_, log') := ApplySpec(api, cr, log, k);
            log' != [] && log'[|log'| - 1].Patch? ==>
              && |log| <= j && LastRead(api, log', j, k, log'[|log'| - 1].uid)
              && (!OwnedBy(api(j, log'[j]).obj, cr) ==> Reread(log', j))
  {
    j := |log|;
    var log1 := log + [Get(k)];
    var answer := api(|log|, Get(k));
    if answer.Found? && OwnedBy(answer.obj, cr) {
      j := UpgradeFollowsLastRead(api, log1, k, answer.obj, 0, j);
    }
  }

  /** A create or a patch of k went through. */
  ghost predicate Applied(api: Cluster, log: seq<Call>, k: Key) {
    exists j: nat :: j < |log| && (log[j].Create? || log[j].Patch?) && log[j].key == k && api(j, log[j]).Found?
  }

  lemma AppliedOnSuccess(api: Cluster, cr: CR, log: seq<Call>, k: Key)
    requires ApplySpec(api, cr, log, k).0
    ensures Applied(api, ApplySpec(api, cr, log, k).1, k)
  {
    var log' := ApplySpec(api, cr, log, k).1;
    var last := log'[|log'| - 1];
    assert (last.Create? || last.Patch?) && last.key == k && api(|log'| - 1, last).Found?;
  }

  /** From call n on: an upgrade of k, a read of k, and so on. */
  ghost predicate Alternates(log: seq<Call>, n: nat, k: Key) {
    forall j :: n <= j < |log| ==> if (j - n) % 2 == 0 then log[j].Upgrade? && log[j].key == k else log[j] == Get(k)
  }

  lemma {:induction false} UpgradeAlternates(api: Cluster, log: seq<Call>, n: nat, k: Key, current: Obj, i: nat)
    requires i < UPGRADE_ATTEMPTS && n + 2 * i == |log| && Alternates(log, n, k)
    ensures var log' := UpgradeSpec(api, log, k, current, i).1;
            log <= log' && |log'| - n <= 2 * UPGRADE_ATTEMPTS - 1 && Alternates(log', n, k)
    decreases UPGRADE_ATTEMPTS - i
  {
    if current.managed.Outdated? {
      var log1 := log + [Upgrade(k, current.uid)];
      assert Alternates(log1, n, k);
      if !api(|log|, Upgrade(k, current.uid)).Found? && i + 1 < UPGRADE_ATTEMPTS {
        var log2 := log1 + [Get(k)];
        assert Alternates(log2, n, k);
        if api(|log1|, Get(k)).Found? {
          UpgradeAlternates(api, log2, n, k, api(|log1|, Get(k)).obj, i + 1);
        }
      }
    }
  }

  // ------------------------------------------------------ when apply succeeds

  /** The object the m-th call read is ready to be patched, or is made so by the upgrade that follows. */
  predicate Settles(api: Cluster, m: nat, k: Key, o: Obj) {
    o.managed.Current? || (o.managed.Outdated? && api(m + 1, Upgrade(k, o.uid)).Found?)
  }

  /** It needs an upgrade, and that is refused. */
  predicate Refused(api: Cluster, m: nat, k: Key, o: Obj) {
    o.managed.Outdated? && !api(m + 1, Upgrade(k, o.uid)).Found?
  }

  /** It settles, and then the patch of that UID goes through. */
  predicate PatchGoes(api: Cluster, m: nat, k: Key, o: Obj) {
    Settles(api, m, k, o) && api(if o.managed.Current? then m + 1 else m + 2, Patch(k, o.uid)).Found?
  }

  /**
   * What the cluster has to answer, from the n-th call on, for apply to
   * succeed: the object is missing and its creation goes through; or it is
   * owned, and at the first, second or third attempt its patch goes through.
   */
  predicate Applies(api: Cluster, cr: CR, n: nat, k: Key) {
    var a0, a1, a2 := api(n, Get(k)), api(n + 2, Get(k)), api(n + 4, Get(k));
    || (a0.NotFound? && api(n + 1, Create(k)).Found?)
    || (&& a0.Found? && (exists i :: 0 <= i < |a0.obj.owners| && OwnedThrough(a0.obj.owners[i], cr))
        && (|| PatchGoes(api, n, k, a0.obj)
            || (&& Refused(api, n, k, a0.obj) && a1.Found?
                && (|| PatchGoes(api, n + 2, k, a1.obj)
                    || (Refused(api, n + 2, k, a1.obj) && a2.Found? && PatchGoes(api, n + 4, k, a2.obj))))))
  }

  /** The reference names this resource, as controller. */
  predicate OwnedThrough(o: OwnerRef, cr: CR) {
    o.uid == cr.uid && o.apiVersion == cr.apiVersion && o.kind == cr.kind && o.controller == Some(true)
  }

  /** apply, once the first read is in: whether its patch goes through, seen from any attempt. */
  function Goes(api: Cluster, log: seq<Call>, k: Key, o: Obj, i: nat): bool {
    var (upgraded, log') := UpgradeSpec(api, log, k, o, i);
    upgraded.Some? && api(|log'|, Patch(k, upgraded.value.uid)).Found?
  }

  /** One attempt, after the read that is the last call of log. */
  lemma AttemptGoes(api: Cluster, log: seq<Call>, k: Key, o: Obj, i: nat)
    requires Honest(api) && log != []
    ensures var m, log' := |log| - 1, log + [Upgrade(k, o.uid)] + [Get(k)];
            Goes(api, log, k, o, i) <==>
              || PatchGoes(api, m, k, o)
              || (&& Refused(api, m, k, o) && i + 1 < UPGRADE_ATTEMPTS && api(m + 2, Get(k)).Found?
                  && Goes(api, log', k, api(m + 2, Get(k)).obj, i + 1))
  {
  }

  lemma GoesSecond(api: Cluster, log: seq<Call>, k: Key, o: Obj)
    requires Honest(api) && log != []
    ensures var m, again := |log| - 1, api(|log| + 1, Get(k));
            Goes(api, log, k, o, 1) <==>
              PatchGoes(api, m, k, o) || (Refused(api, m, k, o) && again.Found? && PatchGoes(api, m + 2, k, again.obj))
  {
    AttemptGoes(api, log, k, o, 1);
    var again := api(|log| + 1, Get(k));
    if again.Found? {
      AttemptGoes(api, log + [Upgrade(k, o.uid)] + [Get(k)], k, again.obj, 2);
    }
  }

  lemma GoesFirst(api: Cluster, log: seq<Call>, k: Key, o: Obj)
    requires Honest(api) && log != []
    ensures var m, a1, a2 := |log| - 1, api(|log| + 1, Get(k)), api(|log| + 3, Get(k));
            Goes(api, log, k, o, 0) <==>
              || PatchGoes(api, m, k, o)
              || (&& Refused(api, m, k, o) && a1.Found?
                  && (|| PatchGoes(api, m + 2, k, a1.obj)
                      || (Refused(api, m + 2, k, a1.obj) && a2.Found? && PatchGoes(api, m + 4, k, a2.obj))))
  {
    AttemptGoes(api, log, k, o, 0);
    var a1 := api(|log| + 1, Get(k));
    if a1.Found? {
      GoesSecond(api, log + [Upgrade(k, o.uid)] + [Get(k)], k, a1.obj);
    }
  }

  lemma SucceedsExactly(api: Cluster, cr: CR, log: seq<Call>, k: Key)
    requires Honest(api)
    ensures ApplySpec(api, cr, log, k).0 <==> Applies(api, cr, |log|, k)
  {
    var a0 := api(|log|, Get(k));
    if a0.Found? {
      assert OwnedBy(a0.obj, cr) <==> exists i :: 0 <= i < |a0.obj.owners| && OwnedThrough(a0.obj.owners[i], cr) by {
        var ours := OwnerRef(cr.uid, cr.apiVersion, cr.kind, Some(true));
        var owners := a0.obj.owners;
        assert forall i :: 0 <= i < |owners| ==> (owners[i] == ours <==> OwnedThrough(owners[i], cr));
      }
      GoesFirst(api, log + [Get(k)], k, a0.obj);
    }
  }

  /**
   * A good answer: an object of ours that can be worked with, or nothing if
   * nothing has been found or created there before; and any other call goes
   * through.
   */
  ghost predicate Good(api: Cluster, cr: CR, log: seq<Call>, i: nat)
    requires i < |log|
  {
    var answer := api(i, log[i]);
    match log[i]
    case Get(k) =>
      if answer.NotFound? then !ThereBefore(api, log, i, k)
      else
        && answer.Found? && OwnedBy(answer.obj, cr)
        && !answer.obj.managed.Unreadable? && !answer.obj.selector.Malformed?
    case ListPods(_) => !answer.Failure?
    case _ => answer.Found?
  }

  /** A call before the i-th found k, or created it. */
  ghost predicate ThereBefore(api: Cluster, log: seq<Call>, i: nat, k: Key) {
    exists j :: 0 <= j < i <= |log| && ((log[j] == Get(k) && api(j, log[j]).Found?) || log[j] == Create(k))
  }

  ghost predicate AnsweredBadly(api: Cluster, cr: CR, log: seq<Call>) {
    exists i: nat :: i < |log| && !Good(api, cr, log, i)
  }

  lemma BadStays(api: Cluster, cr: CR, log: seq<Call>, log': seq<Call>)
    requires log <= log' && AnsweredBadly(api, cr, log)
    ensures AnsweredBadly(api, cr, log')
  {
    var i: nat :| i < |log| && !Good(api, cr, log, i);
    if log[i].Get? && api(i, log[i]).NotFound? {
      var k := log[i].key;
      var j :| 0 <= j < i && ((log[j] == Get(k) && api(j, log[j]).Found?) || log[j] == Create(k));
      assert log'[j] == log[j] && ThereBefore(api, log', i, k);
    }
    assert log'[i] == log[i] && !Good(api, cr, log', i);
  }

  lemma BadLast(api: Cluster, cr: CR, log: seq<Call>)
    requires log != [] && !Good(api, cr, log, |log| - 1)
    ensures AnsweredBadly(api, cr, log)
  {
  }

  lemma {:induction false} UpgradeExtends(api: Cluster, log: seq<Call>, k: Key, current: Obj, i: nat)
    ensures log <= UpgradeSpec(api, log, k, current, i).1
    ensures current.managed.Outdated? ==> log + [Upgrade(k, current.uid)] <= UpgradeSpec(api, log, k, current, i).1
    decreases UPGRADE_ATTEMPTS - i
  {
    if current.managed.Outdated? && i + 1 < UPGRADE_ATTEMPTS {
      var log1 := log + [Upgrade(k, current.uid)];
      if !api(|log|, Upgrade(k, current.uid)).Found? && api(|log1|, Get(k)).Found? {
        UpgradeExtends(api, log1 + [Get(k)], k, api(|log1|, Get(k)).obj, i + 1);
      }
    }
  }

  lemma UpgradeFailsBadly(api: Cluster, cr: CR, log: seq<Call>, k: Key, o: Obj)
    requires log != [] && log[|log| - 1] == Get(k) && api(|log| - 1, Get(k)) == Found(o)
    requires UpgradeSpec(api, log, k, o, 0).0.None?
    ensures AnsweredBadly(api, cr, UpgradeSpec(api, log, k, o, 0).1)
  {
    if o.managed.Outdated? {
      var log1 := log + [Upgrade(k, o.uid)];
      BadLast(api, cr, log1);
      UpgradeExtends(api, log, k, o, 0);
      BadStays(api, cr, log1, UpgradeSpec(api, log, k, o, 0).1);
    } else {
      BadLast(api, cr, log);
    }
  }

  /** apply fails only on a bad answer. */
  lemma ApplyFailsBadly(api: Cluster, cr: CR, log: seq<Call>, k: Key)
    requires !ApplySpec(api, cr, log, k).0
    ensures AnsweredBadly(api, cr, ApplySpec(api, cr, log, k).1)
  {
    var answer := api(|log|, Get(k));
    var log1 := log + [Get(k)];
    if answer.NotFound? {
      BadLast(api, cr, log1 + [Create(k)]);
    } else if !answer.Found? || !OwnedBy(answer.obj, cr) {
      BadLast(api, cr, log1);
    } else {
      var (upgraded, log2) := UpgradeSpec(api, log1, k, answer.obj, 0);
      if upgraded.None? {
        UpgradeFailsBadly(api, cr, log1, k, answer.obj);
      } else {
        BadLast(api, cr, log2 + [Patch(k, upgraded.value.uid)]);
      }
    }
  }

  // ----------------------------------------------------------- the methods

  /** At most three upgrades, with a read between two of them. */
  method UpgradeManagedFields(api: Cluster, log0: seq<Call>, k: Key, read: Obj)
    returns (upgraded: Option<Obj>, log: seq<Call>)
    ensures (upgraded, log) == UpgradeSpec(api, log0, k, read, 0)
    ensures log0 <= log && |log| - |log0| <= 2 * UPGRADE_ATTEMPTS - 1 && Alternates(log, |log0|, k)
    ensures Honest(api) ==> (upgraded.Some? && |log| - |log0| <= 1 ==> upgraded.value.uid == read.uid)
  {
    UpgradeAlternates(api, log0, |log0|, k, read, 0);
    log := log0;
    var current, i := read, 0;
    while true
      invariant i < UPGRADE_ATTEMPTS
      invariant UpgradeSpec(api, log, k, current, i) == UpgradeSpec(api, log0, k, read, 0)
      decreases UPGRADE_ATTEMPTS - i
    {
      if current.managed.Unreadable? {
        return None, log;
      }
      if current.managed.Current? {
        return Some(current), log;
      }
      var answer := api(|log|, Upgrade(k, current.uid));
      log := log + [Upgrade(k, current.uid)];
      if answer.Found? {
        return Some(answer.obj), log;
      }
      if i + 1 == UPGRADE_ATTEMPTS {
        return None, log;
      }
      var again := api(|log|, Get(k));
      log := log + [Get(k)];
      if !again.Found? {
        return None, log;
      }
      current, i := again.obj, i + 1;
    }
  }

  /**
   * apply succeeds for exactly the answers Applies names, and then a create or
   * a patch of k went through; every call
   * concerns k and is proper; and a patch goes to the object of the last read,
   * which was owned unless it was the unchecked re-read.
   */
  method Apply(api: Cluster, cr: CR, log0: seq<Call>, k: Key) returns (ok: bool, log: seq<Call>)
    ensures (ok, log) == ApplySpec(api, cr, log0, k)
    ensures log0 <= log && (ok ==> Applied(api, log, k))
    ensures Honest(api) ==> ProperFrom(api, cr, log, |log0|, k) && (ok <==> Applies(api, cr, |log0|, k))
    ensures Honest(api) && log[|log| - 1].Patch? ==>
      exists j: nat :: |log0| <= j && LastRead(api, log, j, k, log[|log| - 1].uid) &&
        (OwnedBy(api(j, log[j]).obj, cr) || Reread(log, j))
  {
    if Honest(api) {
      ApplyIsProper(api, cr, log0, k);
      SucceedsExactly(api, cr, log0, k);
      var _ := PatchFollowsLastRead(api, cr, log0, k);
    }
    if ApplySpec(api, cr, log0, k).0 { AppliedOnSuccess(api, cr, log0, k); }
    var answer := api(|log0|, Get(k));
    log := log0 + [Get(k)];
    if answer.NotFound? {
      answer := api(|log|, Create(k));
      log := log + [Create(k)];
      return answer.Found?, log;
    }
    if !answer.Found? || !OwnedBy(answer.obj, cr) {
      return false, log;
    }
    var upgraded;
    upgraded, log := UpgradeManagedFields(api, log, k, answer.obj);
    if upgraded.None? {
      return false, log;
    }
    answer := api(|log|, Patch(k, upgraded.value.uid));
    log := log + [Patch(k, upgraded.value.uid)];
    return answer.Found?, log;
  }

  // ------------------------------------------------------------- adoption

  /** Some read of k since call n found this UID, and found it owned. */
  ghost predicate SeenOwned(api: Cluster, cr: CR, log: seq<Call>, n: nat, k: Key, u: Uid) {
    exists i: nat :: n <= i < |log| && log[i] == Get(k) && OwnsUid(cr, api(i, log[i]), u)
  }

  /** The answer is an object of ours with this UID. */
  predicate OwnsUid(cr: CR, answer: Reply, u: Uid) {
    answer.Found? && answer.obj.uid == u && OwnedBy(answer.obj, cr)
  }

  /**
   * What the cluster has to answer, from the n-th call on, for apply to patch
   * an object that it has not read as owned: refuse the upgrade of the owned
   * object it read first; then show, at the first or at the second re-read,
   * somebody else's object in its place, ready to be patched. (At the second,
   * not one that the first re-read showed as owned.)
   */
  predicate Adopts(api: Cluster, cr: CR, n: nat, k: Key) {
    var a0, a1, a2 := api(n, Get(k)), api(n + 2, Get(k)), api(n + 4, Get(k));
    && a0.Found? && OwnedBy(a0.obj, cr) && Refused(api, n, k, a0.obj) && a1.Found?
    && (|| (Settles(api, n + 2, k, a1.obj) && !OwnedBy(a1.obj, cr) && a1.obj.uid != a0.obj.uid)
        || (&& Refused(api, n + 2, k, a1.obj) && a2.Found? && Settles(api, n + 4, k, a2.obj)
            && !OwnedBy(a2.obj, cr) && a2.obj.uid != a0.obj.uid && !OwnsUid(cr, a1, a2.obj.uid)))
  }

  /** apply ends with a patch of an object that none of its reads found owned. */
  ghost predicate PatchesUnowned(api: Cluster, cr: CR, log: seq<Call>, k: Key) {
    var log' := ApplySpec(api, cr, log, k).1;
    && |log| < |log'| && log'[|log'| - 1].Patch?
    && !SeenOwned(api, cr, log', |log|, k, log'[|log'| - 1].uid)
  }

  lemma SeenAfter(api: Cluster, cr: CR, log: seq<Call>, n: nat, k: Key, u: Uid, c: Call)
    requires n <= |log|
    ensures SeenOwned(api, cr, log + [c], n, k, u) <==>
      SeenOwned(api, cr, log, n, k, u) || (c == Get(k) && OwnsUid(cr, api(|log|, c), u))
  {
    var log' := log + [c];
    assert forall i :: 0 <= i < |log| ==> log'[i] == log[i];
    if SeenOwned(api, cr, log, n, k, u) {
      var i: nat :| n <= i < |log| && log[i] == Get(k) && OwnsUid(cr, api(i, log[i]), u);
      assert log'[i] == Get(k);
    }
    if c == Get(k) && OwnsUid(cr, api(|log|, c), u) {
      assert log'[|log|] == Get(k);
    }
  }

  /** The calls of an attempt that ends in a patch. */
  function Patched(api: Cluster, log: seq<Call>, k: Key, o: Obj): seq<Call> {
    (if o.managed.Current? then log else log + [Upgrade(k, o.uid)]) + [Patch(k, o.uid)]
  }

  /** apply, once the first read is in: its calls, seen from any attempt. */
  function Rest(api: Cluster, log: seq<Call>, k: Key, o: Obj, i: nat): seq<Call> {
    var (upgraded, log') := UpgradeSpec(api, log, k, o, i);
    if upgraded.None? then log' else log' + [Patch(k, upgraded.value.uid)]
  }

  /** One attempt, after the read that is the last call of log: it settles, is refused and re-reads, or gives up. */
  lemma Attempt(api: Cluster, log: seq<Call>, k: Key, o: Obj, i: nat)
    requires Honest(api) && log != []
    ensures var m := |log| - 1; Settles(api, m, k, o) ==> Rest(api, log, k, o, i) == Patched(api, log, k, o)
    ensures var m := |log| - 1;
            Refused(api, m, k, o) && i + 1 < UPGRADE_ATTEMPTS && api(m + 2, Get(k)).Found? ==>
              var log' := log + [Upgrade(k, o.uid)] + [Get(k)];
              Rest(api, log, k, o, i) == Rest(api, log', k, api(m + 2, Get(k)).obj, i + 1)
    ensures var m, rest := |log| - 1, Rest(api, log, k, o, i);
            var again := Refused(api, m, k, o) && i + 1 < UPGRADE_ATTEMPTS && api(m + 2, Get(k)).Found?;
            !Settles(api, m, k, o) && !again ==>
              rest == log || (rest != [] && !rest[|rest| - 1].Patch?)
  {
  }

  /** A settled attempt patches an unowned object exactly if no read so far found that UID owned. */
  lemma SettledPatch(api: Cluster, cr: CR, log: seq<Call>, n: nat, k: Key, o: Obj)
    requires n <= |log|
    ensures var p := Patched(api, log, k, o);
            |p| > |log| && p[|p| - 1] == Patch(k, o.uid) &&
            (SeenOwned(api, cr, p, n, k, o.uid) <==> SeenOwned(api, cr, log, n, k, o.uid))
  {
    var log1 := if o.managed.Current? then log else log + [Upgrade(k, o.uid)];
    SeenAfter(api, cr, log, n, k, o.uid, Upgrade(k, o.uid));
    SeenAfter(api, cr, log1, n, k, o.uid, Patch(k, o.uid));
  }

  /** What follows the read of o at the end of log. */
  ghost predicate EndsUnowned(api: Cluster, cr: CR, log: seq<Call>, n: nat, k: Key, o: Obj, i: nat) {
    var rest := Rest(api, log, k, o, i);
    n < |rest| && rest[|rest| - 1].Patch? && !SeenOwned(api, cr, rest, n, k, rest[|rest| - 1].uid)
  }

  lemma AttemptEnds(api: Cluster, cr: CR, log: seq<Call>, n: nat, k: Key, o: Obj, i: nat)
    requires Honest(api) && n < |log| && log[|log| - 1] == Get(k)
    ensures var m, again := |log| - 1, api(|log| + 1, Get(k));
            EndsUnowned(api, cr, log, n, k, o, i) <==>
              || (Settles(api, m, k, o) && !SeenOwned(api, cr, log, n, k, o.uid))
              || (&& Refused(api, m, k, o) && i + 1 < UPGRADE_ATTEMPTS && again.Found?
                  && EndsUnowned(api, cr, log + [Upgrade(k, o.uid)] + [Get(k)], n, k, again.obj, i + 1))
  {
    Attempt(api, log, k, o, i);
    SettledPatch(api, cr, log, n, k, o);
  }

  /** What the reads of one, two and three attempts have found owned. */
  lemma SeenOnReads(api: Cluster, cr: CR, log: seq<Call>, k: Key, u0: Uid, u1: Uid, u: Uid)
    ensures var n := |log|;
            var log0 := log + [Get(k)];
            var log1 := log0 + [Upgrade(k, u0)] + [Get(k)];
            var log2 := log1 + [Upgrade(k, u1)] + [Get(k)];
            && (SeenOwned(api, cr, log0, n, k, u) <==> OwnsUid(cr, api(n, Get(k)), u))
            && (SeenOwned(api, cr, log1, n, k, u) <==>
                  OwnsUid(cr, api(n, Get(k)), u) || OwnsUid(cr, api(n + 2, Get(k)), u))
            && (SeenOwned(api, cr, log2, n, k, u) <==>
                  || OwnsUid(cr, api(n, Get(k)), u) || OwnsUid(cr, api(n + 2, Get(k)), u)
                  || OwnsUid(cr, api(n + 4, Get(k)), u))
  {
    var n := |log|;
    var log0 := log + [Get(k)];
    var log1 := log0 + [Upgrade(k, u0)] + [Get(k)];
    SeenAfter(api, cr, log, n, k, u, Get(k));
    SeenAfter(api, cr, log0, n, k, u, Upgrade(k, u0));
    SeenAfter(api, cr, log0 + [Upgrade(k, u0)], n, k, u, Get(k));
    SeenAfter(api, cr, log1, n, k, u, Upgrade(k, u1));
    SeenAfter(api, cr, log1 + [Upgrade(k, u1)], n, k, u, Get(k));
  }

  /** From the second re-read on. */
  lemma AdoptsThird(api: Cluster, cr: CR, log: seq<Call>, k: Key, a0: Obj, a1: Obj, a2: Obj)
    requires Honest(api) && api(|log|, Get(k)) == Found(a0) && OwnedBy(a0, cr)
    requires api(|log| + 2, Get(k)) == Found(a1) && api(|log| + 4, Get(k)) == Found(a2)
    ensures var n, log2 := |log|, log + [Get(k)] + [Upgrade(k, a0.uid)] + [Get(k)] + [Upgrade(k, a1.uid)] + [Get(k)];
            EndsUnowned(api, cr, log2, n, k, a2, 2) <==>
              && Settles(api, n + 4, k, a2) && !OwnedBy(a2, cr)
              && a2.uid != a0.uid && !OwnsUid(cr, Found(a1), a2.uid)
  {
    var log2 := log + [Get(k)] + [Upgrade(k, a0.uid)] + [Get(k)] + [Upgrade(k, a1.uid)] + [Get(k)];
    AttemptEnds(api, cr, log2, |log|, k, a2, 2);
    SeenOnReads(api, cr, log, k, a0.uid, a1.uid, a2.uid);
  }

  /** From the first re-read on. */
  lemma AdoptsSecond(api: Cluster, cr: CR, log: seq<Call>, k: Key, a0: Obj, a1: Obj)
    requires Honest(api) && api(|log|, Get(k)) == Found(a0) && OwnedBy(a0, cr) && Refused(api, |log|, k, a0)
    requires api(|log| + 2, Get(k)) == Found(a1)
    ensures var n, log1 := |log|, log + [Get(k)] + [Upgrade(k, a0.uid)] + [Get(k)];
            EndsUnowned(api, cr, log1, n, k, a1, 1) <==> Adopts(api, cr, n, k)
  {
    var log1 := log + [Get(k)] + [Upgrade(k, a0.uid)] + [Get(k)];
    AttemptEnds(api, cr, log1, |log|, k, a1, 1);
    SeenOnReads(api, cr, log, k, a0.uid, a1.uid, a1.uid);
    if api(|log| + 4, Get(k)).Found? {
      AdoptsThird(api, cr, log, k, a0, a1, api(|log| + 4, Get(k)).obj);
    }
  }

  /** From the first read on. */
  lemma AdoptsFirst(api: Cluster, cr: CR, log: seq<Call>, k: Key, a0: Obj)
    requires Honest(api) && api(|log|, Get(k)) == Found(a0) && OwnedBy(a0, cr)
    ensures EndsUnowned(api, cr, log + [Get(k)], |log|, k, a0, 0) <==> Adopts(api, cr, |log|, k)
  {
    AttemptEnds(api, cr, log + [Get(k)], |log|, k, a0, 0);
    SeenOnReads(api, cr, log, k, a0.uid, a0.uid, a0.uid);
    if Refused(api, |log|, k, a0) && api(|log| + 2, Get(k)).Found? {
      AdoptsSecond(api, cr, log, k, a0, api(|log| + 2, Get(k)).obj);
    }
  }

  lemma ApplyEnds(api: Cluster, cr: CR, log: seq<Call>, k: Key)
    ensures var a0 := api(|log|, Get(k));
            PatchesUnowned(api, cr, log, k) <==>
              a0.Found? && OwnedBy(a0.obj, cr) && EndsUnowned(api, cr, log + [Get(k)], |log|, k, a0.obj, 0)
  {
    var a0 := api(|log|, Get(k));
    if a0.Found? && OwnedBy(a0.obj, cr) {
      assert ApplySpec(api, cr, log, k).1 == Rest(api, log + [Get(k)], k, a0.obj, 0);
    }
  }

  /** apply patches an object that it has not read as owned exactly when the cluster answers as Adopts says. */
  lemma AdoptsExactly(api: Cluster, cr: CR, log: seq<Call>, k: Key)
    requires Honest(api)
    ensures PatchesUnowned(api, cr, log, k) <==> Adopts(api, cr, |log|, k)
  {
    var a0 := api(|log|, Get(k));
    ApplyEnds(api, cr, log, k);
    if a0.Found? && OwnedBy(a0.obj, cr) {
      AdoptsFirst(api, cr, log, k, a0.obj);
    }
  }

  /** A cluster where the object is replaced, between two reads, by somebody else's. */
  function Replaced(cr: CR): Cluster {
    (i: nat, c: Call) =>
      var owners := [OwnerRef(cr.uid, cr.apiVersion, cr.kind, Some(true))];
      if c.Get? && i == 0 then Found(Obj("ours", owners, false, true, Labels, Outdated))
      else if c.Get? || c.Patch? then Found(Obj("theirs", [], false, true, Labels, Current))
      else Failure
  }

  /** The re-read adopts: the forced patch goes, and succeeds, to an object that no call read as owned. */
  lemma RereadAdopts(cr: CR, k: Key)
    ensures Honest(Replaced(cr))
    ensures ApplySpec(Replaced(cr), cr, [], k) == (true, [Get(k), Upgrade(k, "ours"), Get(k), Patch(k, "theirs")])
    ensures !OwnedBy(Replaced(cr)(2, Get(k)).obj, cr)
  {
    var api := Replaced(cr);
    var ours := api(0, Get(k)).obj;
    assert ours.owners[0] == OwnerRef(cr.uid, cr.apiVersion, cr.kind, Some(true));
    assert OwnedBy(ours, cr);
    var log := [Get(k), Upgrade(k, "ours"), Get(k)];
    assert [] + [Get(k)] == [Get(k)] && [Get(k)] + [Upgrade(k, "ours")] + [Get(k)] == log;
    assert UpgradeSpec(api, log, k, api(2, Get(k)).obj, 1) == (Some(api(2, Get(k)).obj), log);
    assert UpgradeSpec(api, [Get(k)], k, ours, 0) == (Some(api(2, Get(k)).obj), log);
    assert log + [Patch(k, "theirs")] == [Get(k), Upgrade(k, "ours"), Get(k), Patch(k, "theirs")];
    assert api(3, Patch(k, "theirs")).Found?;
  }
}
