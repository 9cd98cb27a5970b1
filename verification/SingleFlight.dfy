/**
 * The single-flight registries: beginMount with MountShare
 * (pkg/common/host_utils.go) and probeVolumePath (pkg/driver/node.go).
 *
 * Both keep one running attempt per key, hand it to every caller that asks
 * meanwhile, and let callers give up waiting while the attempt runs on. They
 * differ in one detail, which is a parameter here: beginMount takes the
 * attempt off the registry before it writes the result down, probeVolumePath
 * after. Both close the done channel last.
 */
module SingleFlight {
  import opened Wrappers

  /** Targets and paths matter here only as names. */
  type Key = nat
  type AttId = nat
  type Caller = nat

  datatype Order = UnregisterThenWrite | WriteThenUnregister

  /** How far the attempt's goroutine has come. */
  datatype Phase = Executing | Returned | Halfway | Ready | Closed

  /** `outcome` is what the call returned; `field` what the attempt's result field holds. */
  datatype Attempt<R> = Attempt(key: Key, phase: Phase, outcome: Option<R>, field: Option<R>)

  datatype Call<R> = Waiting(att: AttId) | Answered(att: AttId, result: Option<R>) | TimedOut(att: AttId)

  /** `asked` collects every key any caller ever asked for. */
  datatype Sys<R> = Sys(
    order: Order, registry: map<Key, AttId>, attempts: map<AttId, Attempt<R>>, calls: map<Caller, Call<R>>,
      asked: set<Key>)

  datatype Action<R> =
    | Begin(c: Caller, key: Key, fresh_: AttId)   // under the registry's mutex
    | Finish(a: AttId, result: R)                 // the call returns
    | Record(a: AttId)                            // first of write and unregister
    | Settle(a: AttId)                            // second of the two
    | CloseDone(a: AttId)
    | Receive(c: Caller)                          // a waiter sees done and reads the field
    | Timeout(c: Caller)

  predicate Enabled<R(==)>(s: Sys<R>, act: Action<R>) {
    match act
    case Begin(c, key, a) => c !in s.calls && a !in s.attempts
    case Finish(a, _) => a in s.attempts && s.attempts[a].phase == Executing
    case Record(a) => a in s.attempts && s.attempts[a].phase == Returned
    case Settle(a) => a in s.attempts && s.attempts[a].phase == Halfway
    case CloseDone(a) => a in s.attempts && s.attempts[a].phase == Ready
    case Receive(c) => c in s.calls && s.calls[c].Waiting? && s.calls[c].att in s.attempts &&
      s.attempts[s.calls[c].att].phase == Closed
    case Timeout(c) => c in s.calls && s.calls[c].Waiting?
  }

  /** Write the result down, or take the attempt off the registry; whichever is due. */
  function Complete<R>(s: Sys<R>, a: AttId, write: bool, phase: Phase): Sys<R>
    requires a in s.attempts
  {
    var att := s.attempts[a];
    if write then s.(attempts := s.attempts[a := att.(phase := phase, field := att.outcome)])
    else s.(attempts := s.attempts[a := att.(phase := phase)], registry := s.registry - {att.key})
  }

  function Apply<R(==)>(s: Sys<R>, act: Action<R>): Sys<R>
    requires Enabled(s, act)
  {
    match act
    case Begin(c, key, a) =>
      if key in s.registry
      then s.(calls := s.calls[c := Waiting(s.registry[key])], asked := s.asked + {key})
      else s.(calls := s.calls[c := Waiting(a)], asked := s.asked + {key},
              registry := s.registry[key := a], attempts := s.attempts[a := Attempt(key, Executing, None, None)])
    case Finish(a, result) =>
      s.(attempts := s.attempts[a := s.attempts[a].(phase := Returned, outcome := Some(result))])
    case Record(a) => Complete(s, a, s.order == WriteThenUnregister, Halfway)
    case Settle(a) => Complete(s, a, s.order == UnregisterThenWrite, Ready)
    case CloseDone(a) => s.(attempts := s.attempts[a := s.attempts[a].(phase := Closed)])
    case Receive(c) => s.(calls := s.calls[c := Answered(s.calls[c].att, s.attempts[s.calls[c].att].field)])
    case Timeout(c) => s.(calls := s.calls[c := TimedOut(s.calls[c].att)])
  }

  ghost predicate Init<R(!new)>(s: Sys<R>) {
    s.registry == map[] && s.attempts == map[] && s.calls == map[] && s.asked == {}
  }

  ghost predicate Run<R(!new)>(s: Sys<R>, acts: seq<Action<R>>, s': Sys<R>)
    decreases |acts|
  {
    if acts == [] then s' == s
    else Enabled(s, acts[0]) && Run(Apply(s, acts[0]), acts[1..], s')
  }

  // -------------------------------------------------------------- invariant

  /** Still on the registry. */
  predicate Registered(order: Order, phase: Phase) {
    phase == Executing || phase == Returned || (phase == Halfway && order == WriteThenUnregister)
  }

  /** Result field filled in. */
  predicate Written(order: Order, phase: Phase) {
    phase == Ready || phase == Closed || (phase == Halfway && order == WriteThenUnregister)
  }

  ghost predicate AttemptInv<R(!new)>(s: Sys<R>) {
    forall a :: a in s.attempts ==> AttemptOk(s, a)
  }

  ghost predicate RegistryInv<R(!new)>(s: Sys<R>) {
    && s.registry.Keys <= s.asked
    && forall k :: k in s.registry ==>
         s.registry[k] in s.attempts && s.attempts[s.registry[k]].key == k &&
           Registered(s.order, s.attempts[s.registry[k]].phase)
  }

  ghost predicate CallInv<R(!new)>(s: Sys<R>) {
    && (forall c :: c in s.calls ==> s.calls[c].att in s.attempts)
    && (forall c :: c in s.calls && s.calls[c].Answered? ==>
          s.calls[c].result.Some? && s.calls[c].result == s.attempts[s.calls[c].att].outcome)
  }

  ghost predicate Inv<R(!new)>(s: Sys<R>) {
    AttemptInv(s) && RegistryInv(s) && CallInv(s)
  }

  ghost predicate AttemptOk<R(!new)>(s: Sys<R>, a: AttId)
    requires a in s.attempts
  {
    && (Registered(s.order, s.attempts[a].phase) ==>
          s.attempts[a].key in s.registry && s.registry[s.attempts[a].key] == a)
    && (s.attempts[a].phase != Executing <==> s.attempts[a].outcome.Some?)
    && (Written(s.order, s.attempts[a].phase) ==> s.attempts[a].field == s.attempts[a].outcome)
  }

  lemma StepAttempt<R(!new)>(s: Sys<R>, act: Action<R>, a: AttId)
    requires AttemptInv(s) && RegistryInv(s) && Enabled(s, act) && a in Apply(s, act).attempts
    ensures AttemptOk(Apply(s, act), a)
  {
    match act
    case Record(b) => if a in s.attempts { assert AttemptOk(s, a) && AttemptOk(s, b); }
    case Settle(b) => if a in s.attempts { assert AttemptOk(s, a) && AttemptOk(s, b); }
    case _ => if a in s.attempts { assert AttemptOk(s, a); }
  }

  lemma StepAttempts<R(!new)>(s: Sys<R>, act: Action<R>)
    requires AttemptInv(s) && RegistryInv(s) && Enabled(s, act)
    ensures AttemptInv(Apply(s, act))
  {
    forall a | a in Apply(s, act).attempts ensures AttemptOk(Apply(s, act), a) {
      StepAttempt(s, act, a);
    }
  }

  lemma StepRegistry<R(!new)>(s: Sys<R>, act: Action<R>)
    requires AttemptInv(s) && RegistryInv(s) && Enabled(s, act)
    ensures RegistryInv(Apply(s, act))
  {
  }

  lemma StepCalls<R(!new)>(s: Sys<R>, act: Action<R>)
    requires AttemptInv(s) && RegistryInv(s) && CallInv(s) && Enabled(s, act)
    ensures CallInv(Apply(s, act))
  {
  }

  lemma StepInv<R(!new)>(s: Sys<R>, act: Action<R>)
    requires Inv(s) && Enabled(s, act)
    ensures Inv(Apply(s, act)) && Apply(s, act).order == s.order
  {
    StepAttempts(s, act);
    StepRegistry(s, act);
    StepCalls(s, act);
  }

  lemma {:induction false} RunInv<R(!new)>(s: Sys<R>, acts: seq<Action<R>>, s': Sys<R>)
    requires Inv(s) && Run(s, acts, s')
    ensures Inv(s')
    decreases |acts|
  {
    if acts != [] {
      StepInv(s, acts[0]);
      RunInv(Apply(s, acts[0]), acts[1..], s');
    }
  }

  // --------------------------------------------------------------- theorems

  ghost function Executions<R(!new)>(s: Sys<R>): set<AttId> {
    set a | a in s.attempts && s.attempts[a].phase == Executing
  }

  /** At most one call is executing per key. */
  lemma OneExecutionPerKey<R(!new)>(s0: Sys<R>, acts: seq<Action<R>>, s: Sys<R>, a: AttId, b: AttId)
    requires Init(s0) && Run(s0, acts, s)
    requires a in Executions(s) && b in Executions(s) && s.attempts[a].key == s.attempts[b].key
    ensures a == b
  {
    RunInv(s0, acts, s);
  }

  lemma {:induction false} Injective<R(!new)>(s: Sys<R>, ids: set<AttId>, keys: set<Key>)
    requires Inv(s) && ids <= Executions(s)
    requires forall a :: a in ids ==> s.attempts[a].key in keys
    ensures |ids| <= |keys|
  {
    if ids != {} {
      var a :| a in ids;
      var k := s.attempts[a].key;
      forall b | b in ids - {a} ensures s.attempts[b].key in keys - {k} {
        assert Registered(s.order, s.attempts[a].phase) && Registered(s.order, s.attempts[b].phase);
      }
      Injective(s, ids - {a}, keys - {k});
    }
  }

  /** However many callers retried and timed out, no more calls are stuck than keys were asked for. */
  lemma StuckCallsAreBounded<R(!new)>(s0: Sys<R>, acts: seq<Action<R>>, s: Sys<R>)
    requires Init(s0) && Run(s0, acts, s)
    ensures |Executions(s)| <= |s.asked|
  {
    RunInv(s0, acts, s);
    forall a | a in Executions(s) ensures s.attempts[a].key in s.asked {
      assert Registered(s.order, s.attempts[a].phase);
    }
    Injective(s, Executions(s), s.asked);
  }

  /** A waiter that saw done has the result of the very attempt it attached to. */
  lemma WaiterReadsItsAttempt<R(!new)>(s0: Sys<R>, acts: seq<Action<R>>, s: Sys<R>, c: Caller)
    requires Init(s0) && Run(s0, acts, s) && c in s.calls && s.calls[c].Answered?
    ensures s.calls[c].att in s.attempts && s.calls[c].result == s.attempts[s.calls[c].att].outcome &&
      s.calls[c].result.Some?
  {
    RunInv(s0, acts, s);
  }

  /**
   * A caller never attaches to an attempt for another key or to a closed one,
   * and starts an attempt of its own exactly when none is on the registry; in
   * particular when every earlier attempt for the key is closed.
   */
  lemma NewCallAfterCompletion<R(!new)>(s0: Sys<R>, acts: seq<Action<R>>, s: Sys<R>, c: Caller, key: Key, a: AttId)
    requires Init(s0) && Run(s0, acts, s) && Enabled(s, Begin(c, key, a))
    ensures var s' := Apply(s, Begin(c, key, a)); var att := s'.calls[c].att;
            && att in s'.attempts && s'.attempts[att].key == key && s'.attempts[att].phase != Closed
            && (att == a <==> a in Executions(s'))
            && ((forall b :: b in s.attempts && s.attempts[b].key == key ==> s.attempts[b].phase == Closed) ==>
                  att == a)
  {
    RunInv(s0, acts, s);
  }

  /** A caller stays attached to one attempt, and what it was told once never changes. */
  lemma {:induction false} AnswerIsFinal<R(!new)>(s: Sys<R>, acts: seq<Action<R>>, s': Sys<R>, c: Caller)
    requires Inv(s) && Run(s, acts, s') && c in s.calls
    ensures c in s'.calls && s'.calls[c].att == s.calls[c].att
    ensures !s.calls[c].Waiting? ==> s'.calls[c] == s.calls[c]
    decreases |acts|
  {
    if acts != [] {
      StepInv(s, acts[0]);
      AnswerIsFinal(Apply(s, acts[0]), acts[1..], s', c);
    }
  }

  /** How many steps the attempt's goroutine has before it. */
  function Ahead(phase: Phase): nat {
    match phase
    case Executing => 4
    case Returned => 3
    case Halfway => 2
    case Ready => 1
    case Closed => 0
  }

  lemma {:induction false} GoesOn<R(!new)>(s: Sys<R>, c: Caller, a: AttId) returns (acts: seq<Action<R>>, s': Sys<R>)
    requires Inv(s) && c in s.calls && s.calls[c] == Waiting(a) && s.attempts[a].phase != Executing
    ensures Run(s, acts, s') && |acts| == Ahead(s.attempts[a].phase) + 1
    ensures c in s'.calls && s'.calls[c] == Answered(a, s.attempts[a].outcome)
    ensures a in s'.attempts && s'.attempts[a].phase == Closed
    ensures forall k :: k in s'.registry ==> s'.registry[k] != a
    decreases Ahead(s.attempts[a].phase)
  {
    var next := match s.attempts[a].phase
      case Returned => Record(a)
      case Halfway => Settle(a)
      case Ready => CloseDone(a)
      case _ => Receive(c);
    StepInv(s, next);
    if s.attempts[a].phase == Closed {
      acts, s' := [next], Apply(s, next);
      assert Run(Apply(s, next), [], s') && acts[1..] == [];
    } else {
      var rest;
      rest, s' := GoesOn(Apply(s, next), c, a);
      acts := [next] + rest;
      assert acts[1..] == rest;
    }
  }

  /**
   * Once the call has returned, the attempt's goroutine can go on by itself:
   * in as many steps as it has ahead the attempt is off the registry and
   * closed, and then a caller that still waits can be told what it returned.
   */
  lemma ReturnedIsDelivered<R(!new)>(s0: Sys<R>, before: seq<Action<R>>, s: Sys<R>, c: Caller, a: AttId)
    returns (acts: seq<Action<R>>, s': Sys<R>)
    requires Init(s0) && Run(s0, before, s)
    requires c in s.calls && s.calls[c] == Waiting(a) && a in s.attempts && s.attempts[a].phase != Executing
    ensures Run(s, acts, s') && |acts| == Ahead(s.attempts[a].phase) + 1
    ensures c in s'.calls && s'.calls[c] == Answered(a, s.attempts[a].outcome)
    ensures a in s'.attempts && s'.attempts[a].phase == Closed
    ensures forall k :: k in s'.registry ==> s'.registry[k] != a
  {
    RunInv(s0, before, s);
    acts, s' := GoesOn(s, c, a);
  }
}
