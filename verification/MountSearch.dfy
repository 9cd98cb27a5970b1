/**
 * The search for a data portal and an NFS version that mount a share
 * (pkg/driver/utils.go, mountShareSubPathAtBestDataportal, and
 * pkg/client/hsclient.go, GetDataPortals).
 */
module MountSearch {
  import opened Wrappers

  datatype Portal = Portal(node: string, address: string, operState: string, adminState: string, kind: string)

  /** One try at a portal: the address it uses and the flags it passes. */
  datatype Try = Try(portal: Portal, address: string, flags: seq<string>)

  /** How a try ends: no usable export, a mount that failed, or a mount. */
  datatype Outcome = NoExport | MountFails | Mounts

  // ---------------------------------------------------------------- portals

  predicate Up(p: Portal) {
    p.operState == "UP" && p.adminState == "UP" && p.kind == "NFS_V3"
  }

  /** The portals that are up and, as asked, on the node or not, in their own order. */
  function Pick(portals: seq<Portal>, node: string, here: bool): seq<Portal> {
    if portals == [] then []
    else
      var p := portals[|portals| - 1];
      Pick(portals[..|portals| - 1], node, here) + if Up(p) && (p.node == node) == here then [p] else []
  }

  /** Position n of the portals is position m of what Pick keeps. */
  ghost predicate Kept(portals: seq<Portal>, node: string, here: bool, n: nat, m: nat) {
    && n < |portals| && m == |Pick(portals[..n], node, here)| && (portals[n].node == node) == here
    && portals[n].operState == "UP" && portals[n].adminState == "UP" && portals[n].kind == "NFS_V3"
  }

  /** Picking keeps every portal it should, once, in the order of the list. */
  lemma {:induction false} PickIsStable(portals: seq<Portal>, node: string, here: bool, n: nat, m: nat)
    requires Kept(portals, node, here, n, m)
    ensures m < |Pick(portals, node, here)| && Pick(portals, node, here)[m] == portals[n]
    ensures forall n', m' :: n < n' && Kept(portals, node, here, n', m') ==> m < m'
  {
    var last := |portals| - 1;
    var rest := portals[..last];
    if n < last {
      assert rest[..n] == portals[..n];
      PickIsStable(rest, node, here, n, m);
      forall n', m' | n < n' && Kept(portals, node, here, n', m') ensures m < m' {
        if n' < last {
          assert rest[..n'] == portals[..n'];
          assert Kept(rest, node, here, n', m');
        }
      }
    }
  }

  /** Every position of the result comes from a portal of the list. */
  lemma {:induction false} PickHasNoOthers(portals: seq<Portal>, node: string, here: bool, m: nat) returns (n: nat)
    requires m < |Pick(portals, node, here)|
    ensures Kept(portals, node, here, n, m)
  {
    var last := |portals| - 1;
    var rest := portals[..last];
    if m < |Pick(rest, node, here)| {
      n := PickHasNoOthers(rest, node, here, m);
      assert rest[..n] == portals[..n];
    } else {
      n := last;
    }
  }

  lemma PickOneMore(portals: seq<Portal>, p: Portal, node: string, here: bool)
    ensures Pick(portals + [p], node, here) ==
              Pick(portals, node, here) + if Up(p) && (p.node == node) == here then [p] else []
  {
    assert (portals + [p])[..|portals|] == portals;
  }

  /** upDataPortals keeps what Pick would keep. */
  method UpDataPortals(portals: seq<Portal>, ghost node: string) returns (up: seq<Portal>)
    ensures forall p :: p in up ==> Up(p)
    ensures Pick(up, node, true) == Pick(portals, node, true) && Pick(up, node, false) == Pick(portals, node, false)
  {
    up := [];
    for i := 0 to |portals|
      invariant forall p :: p in up ==> Up(p)
      invariant Pick(up, node, true) == Pick(portals[..i], node, true)
      invariant Pick(up, node, false) == Pick(portals[..i], node, false)
    {
      var p := portals[i];
      assert portals[..i + 1] == portals[..i] + [p];
      PickOneMore(portals[..i], p, node, true);
      PickOneMore(portals[..i], p, node, false);
      if Up(p) {
        PickOneMore(up, p, node, true);
        PickOneMore(up, p, node, false);
        up := up + [p];
      }
    }
    assert portals[..|portals|] == portals;
  }

  method GetDataPortals(portals: seq<Portal>, node: string) returns (ordered: seq<Portal>)
    ensures ordered == Pick(portals, node, true) + Pick(portals, node, false)
  {
    var up := UpDataPortals(portals, node);
    var colocated: seq<Portal>, others: seq<Portal> := [], [];
    for i := 0 to |up|
      invariant colocated == Pick(up[..i], node, true) && others == Pick(up[..i], node, false)
    {
      var p := up[i];
      assert p in up && up[..i + 1] == up[..i] + [p];
      PickOneMore(up[..i], p, node, true);
      PickOneMore(up[..i], p, node, false);
      if p.node == node {
        colocated := colocated + [p];
      } else {
        others := others + [p];
      }
    }
    assert up[..|up|] == up;
    return colocated + others;
  }

  // ------------------------------------------------------------------ flags

  predicate IsVersion(flag: string) {
    "nfsvers=" <= flag || "vers=" <= flag
  }

  function Versions(flags: seq<string>): nat {
    if flags == [] then 0 else (if IsVersion(flags[0]) then 1 else 0) + Versions(flags[1..])
  }

  /** The flags that do not name a version, in order. */
  function Plain(flags: seq<string>): seq<string> {
    if flags == [] then []
    else
      var last := flags[|flags| - 1];
      Plain(flags[..|flags| - 1]) + if IsVersion(last) then [] else [last]
  }

  function With42(flags: seq<string>): seq<string> {
    flags + ["nfsvers=4.2"]
  }

  function With3(flags: seq<string>): seq<string> {
    flags + ["nfsvers=3", "nolock"]
  }

  /** The flags of each version phase. */
  function Phases(flags: seq<string>): seq<seq<string>> {
    (if Versions(flags) > 0 then [flags]
        else []) + [With42(Plain(flags)), With3(Plain(flags))]
  }

  lemma {:induction false} VersionsAppend(a: seq<string>, b: seq<string>)
    ensures Versions(a + b) == Versions(a) + Versions(b)
  {
    if a == [] {
      assert a + b == b;
    } else {
      VersionsAppend(a[1..], b);
      assert (a + b)[1..] == a[1..] + b;
    }
  }

  lemma {:induction false} PlainHasNoVersion(flags: seq<string>)
    ensures Versions(Plain(flags)) == 0
    ensures Versions(flags) == 0 ==> Plain(flags) == flags
  {
    if flags != [] {
      var n := |flags| - 1;
      PlainHasNoVersion(flags[..n]);
      assert flags == flags[..n] + [flags[n]];
      VersionsAppend(flags[..n], [flags[n]]);
      VersionsAppend(Plain(flags[..n]), if IsVersion(flags[n]) then [] else [flags[n]]);
    }
  }

  /** Every fallback phase names exactly one version; a phase of the caller's own flags comes only if they name one. */
  lemma EachFallbackHasOneVersion(flags: seq<string>)
    ensures var p := Phases(flags);
            && 2 <= |p| <= 3 && (|p| == 3 <==> Versions(flags) > 0) && (|p| == 3 ==> p[0] == flags)
            && Versions(p[|p| - 2]) == 1 && Versions(p[|p| - 1]) == 1
            && p[|p| - 2] == Plain(flags) + ["nfsvers=4.2"] && p[|p| - 1] == Plain(flags) + ["nfsvers=3", "nolock"]
  {
    PlainHasNoVersion(flags);
    VersionsAppend(Plain(flags), ["nfsvers=4.2"]);
    VersionsAppend(Plain(flags), ["nfsvers=3", "nolock"]);
    assert "nfsvers=4.2"[..8] == "nfsvers=" && "nfsvers=3"[..8] == "nfsvers=";
    assert IsVersion("nfsvers=4.2") && IsVersion("nfsvers=3");
    assert !IsVersion("nolock") by { assert "nolock"[0] == 'n' && "nolock"[1] == 'o' && "nfsvers="[1] == 'f' &&
        "vers="[0] == 'v'; }
    assert Versions(["nfsvers=4.2"]) == 1 && ["nfsvers=3", "nolock"][1..] == ["nolock"] && Versions(["nolock"]) == 0;
  }

  // ----------------------------------------------------------------- search

  function AddressOf(p: Portal, floating: string): string {
    if floating != "" then floating else p.address
  }

  /** The tries of one phase, portal by portal. */
  function Phase(portals: seq<Portal>, floating: string, flags: seq<string>): seq<Try> {
    seq(|portals|, i requires 0 <= i < |portals| => Try(portals[i], AddressOf(portals[i], floating), flags))
  }

  function Plan(portals: seq<Portal>, floating: string, phases: seq<seq<string>>): seq<Try> {
    if phases == [] then [] else Phase(portals, floating, phases[0]) + Plan(portals, floating, phases[1..])
  }

  lemma {:induction false} PlanSize(portals: seq<Portal>, floating: string, phases: seq<seq<string>>)
    ensures |Plan(portals, floating, phases)| == |phases| * |portals|
  {
    if phases != [] {
      PlanSize(portals, floating, phases[1..]);
      assert |phases| * |portals| == |portals| + |phases[1..]| * |portals|;
    }
  }

  lemma Within(v: nat, k: nat, p: nat, n: nat)
    requires v < k && p < n
    ensures v * n + p < k * n
  {
    assert (v + 1) * n <= k * n;
  }

  /** The plan goes through the phases in order and, in each, through the portals in order. */
  lemma {:induction false} PlanOrder(portals: seq<Portal>, floating: string, phases: seq<seq<string>>, v: nat, p: nat)
    requires v < |phases| && p < |portals|
    ensures v * |portals| + p < |Plan(portals, floating, phases)|
    ensures Plan(portals, floating, phases)[v * |portals| + p] ==
      Try(portals[p], if floating == "" then portals[p].address else floating, phases[v])
  {
    PlanSize(portals, floating, phases);
    Within(v, |phases|, p, |portals|);
    if v > 0 {
      PlanOrder(portals, floating, phases[1..], v - 1, p);
      assert v * |portals| + p == |portals| + ((v - 1) * |portals| + p);
    }
  }

  /** Once the context is done it stays done. */
  ghost predicate Monotone(cancelled: nat -> bool) {
    forall i: nat, j: nat :: i <= j && cancelled(i) ==> cancelled(j)
  }

  /** Tries are made in the order of the plan, until one mounts or the context is done. */
  ghost predicate Follows(tried: seq<Try>, plan: seq<Try>, mounted: bool, cancelled: nat -> bool,
      outcome: nat -> Outcome) {
    && tried <= plan
    && (forall i: nat :: i < |tried| ==> !cancelled(i))
    && (forall i: nat :: i + 1 < |tried| ==> !outcome(i).Mounts?)
    && (mounted <==> tried != [] && outcome(|tried| - 1).Mounts?)
    && (!mounted ==> tried == plan || cancelled(|tried|))
  }

  /** One phase; it carries on the tries made so far. */
  method TryPhase(tried0: seq<Try>, ghost plan: seq<Try>, portals: seq<Portal>, floating: string, flags: seq<string>,
      cancelled: nat -> bool, outcome: nat -> Outcome)
    returns (mounted: bool, tried: seq<Try>)
    requires Monotone(cancelled) && Follows(tried0, plan, false, cancelled, outcome)
    ensures Follows(tried, plan + Phase(portals, floating, flags), mounted, cancelled, outcome)
  {
    tried := tried0;
    ghost var phase := Phase(portals, floating, flags);
    for i := 0 to |portals|
      invariant Follows(tried, plan + phase[..i], false, cancelled, outcome)
    {
      assert plan + phase[..i + 1] == (plan + phase[..i]) + [phase[i]];
      if cancelled(|tried|) {
        continue;
      }
      tried := tried + [Try(portals[i], AddressOf(portals[i], floating), flags)];
      if outcome(|tried| - 1).Mounts? {
        assert plan + phase == (plan + phase[..i + 1]) + phase[i + 1..];
        return true, tried;
      }
    }
    assert phase[..|portals|] == phase;
    mounted := false;
  }

  datatype Result = Mounted | SlotTimeout | PortalsUnknown | NoPortalMounts

  /** A list of portals, and the address that replaces theirs, if one is known. */
  function Targets(listed: seq<Portal>, fqdn: string, floating: string): seq<Portal> {
    if listed == [] && floating != "" then [Portal(fqdn, floating, "", "", "")] else listed
  }

  /**
   * The whole search. For any portals, flags, failures and cancellation: the
   * tries are a prefix of the plan, at most three per portal; none is made
   * once one has mounted or the context is done; and success is returned
   * exactly when the last try mounted.
   */
  method Search(slot: bool, listed: Option<seq<Portal>>, fqdn: string, resolved: Option<string>,
      floatingIp: Option<string>,
                mountFlags: seq<string>, cancelled: nat -> bool, outcome: nat -> Outcome)
    returns (result: Result, tried: seq<Try>, ghost portals: seq<Portal>, ghost floating: string)
    requires Monotone(cancelled)
    ensures result.SlotTimeout? <==> !slot
    ensures result.PortalsUnknown? <==> slot && listed.None?
    ensures result.SlotTimeout? || result.PortalsUnknown? ==> tried == []
    ensures slot && listed.Some? ==>
      && floating == (if resolved.Some? &&
          resolved.value != "" then resolved.value else if floatingIp.Some? then floatingIp.value else "")
      && portals == Targets(listed.value, fqdn, floating)
      && Follows(tried, Plan(portals, floating, Phases(mountFlags)), result.Mounted?, cancelled, outcome)
      && |tried| <= 3 * |portals|
  {
    tried, portals, floating := [], [], "";
    if !slot {
      return SlotTimeout, tried, portals, floating;
    }
    if listed.None? {
      return PortalsUnknown, tried, portals, floating;
    }
    var address := "";
    if resolved.Some? && resolved.value != "" {
      address := resolved.value;
    } else if floatingIp.Some? {
      address := floatingIp.value;
    }
    var targets := listed.value;
    if |targets| == 0 && address != "" {
      targets := [Portal(fqdn, address, "", "", "")];
    }
    portals, floating := targets, address;
    var mounted;
    mounted, tried := SearchPhases(targets, address, mountFlags, cancelled, outcome);
    result := if mounted then Mounted else NoPortalMounts;
  }

  method FilterFlags(flags: seq<string>) returns (contains: bool, filtered: seq<string>)
    ensures contains <==> Versions(flags) > 0
    ensures contains <==> exists i :: 0 <= i < |flags| && ("nfsvers=" <= flags[i] || "vers=" <= flags[i])
    ensures filtered == Plain(flags)
    ensures forall f :: f in filtered <==> f in flags && !("nfsvers=" <= f) && !("vers=" <= f)
  {
    contains, filtered := false, [];
    for i := 0 to |flags|
      invariant contains <==> Versions(flags[..i]) > 0
      invariant contains <==> exists j :: 0 <= j < i && ("nfsvers=" <= flags[j] || "vers=" <= flags[j])
      invariant forall f :: f in filtered <==> f in flags[..i] && !("nfsvers=" <= f) && !("vers=" <= f)
      invariant filtered == Plain(flags[..i])
    {
      assert flags[..i + 1] == flags[..i] + [flags[i]];
      assert forall f :: f in flags[..i + 1] <==> f in flags[..i] || f == flags[i];
      assert flags[..i + 1][..i] == flags[..i];
      VersionsAppend(flags[..i], [flags[i]]);
      if IsVersion(flags[i]) {
        contains := true;
      } else {
        filtered := filtered + [flags[i]];
      }
    }
    assert flags[..|flags|] == flags;
  }

  lemma MountedStays(tried: seq<Try>, plan: seq<Try>, more: seq<Try>, cancelled: nat -> bool, outcome: nat -> Outcome)
    requires Follows(tried, plan, true, cancelled, outcome)
    ensures Follows(tried, plan + more, true, cancelled, outcome)
  {
    assert plan <= plan + more;
  }

  /** The tries of the two fallback phases. */
  function Fallbacks(portals: seq<Portal>, floating: string, flags: seq<string>): seq<Try> {
    Phase(portals, floating, With42(flags)) + Phase(portals, floating, With3(flags))
  }

  /** The two fallback phases, on flags that name no version. */
  method FallBack(tried0: seq<Try>, ghost plan: seq<Try>, portals: seq<Portal>, floating: string, flags: seq<string>,
      cancelled: nat -> bool, outcome: nat -> Outcome)
    returns (mounted: bool, tried: seq<Try>)
    requires Monotone(cancelled) && Follows(tried0, plan, false, cancelled, outcome)
    ensures Follows(tried, plan + Fallbacks(portals, floating, flags), mounted, cancelled, outcome)
  {
    ghost var first, second := Phase(portals, floating, With42(flags)), Phase(portals, floating, With3(flags));
    assert plan + Fallbacks(portals, floating, flags) == plan + first + second;
    mounted, tried := TryPhase(tried0, plan, portals, floating, With42(flags), cancelled, outcome);
    if mounted {
      MountedStays(tried, plan + first, second, cancelled, outcome);
      return;
    }
    mounted, tried := TryPhase(tried, plan + first, portals, floating, With3(flags), cancelled, outcome);
  }

  method SearchPhases(portals: seq<Portal>, floating: string, mountFlags: seq<string>, cancelled: nat -> bool,
      outcome: nat -> Outcome)
    returns (mounted: bool, tried: seq<Try>)
    requires Monotone(cancelled)
    ensures Follows(tried, Plan(portals, floating, Phases(mountFlags)), mounted, cancelled, outcome)
    ensures |tried| <= 3 * |portals|
  {
    var contains, flags := FilterFlags(mountFlags);
    PlanOf(portals, floating, mountFlags);
    if contains {
      ghost var own := Phase(portals, floating, mountFlags);
      mounted, tried := TryPhase([], [], portals, floating, mountFlags, cancelled, outcome);
      assert [] + own == own;
      if mounted {
        MountedStays(tried, own, Fallbacks(portals, floating, flags), cancelled, outcome);
      } else {
        mounted, tried := FallBack(tried, own, portals, floating, flags, cancelled, outcome);
      }
    } else {
      PlainHasNoVersion(mountFlags);
      mounted, tried := FallBack([], [], portals, floating, mountFlags, cancelled, outcome);
      assert [] + Fallbacks(portals, floating, flags) == Fallbacks(portals, floating, flags);
    }
    AtMostThree(tried, portals, floating, mountFlags);
  }

  lemma AtMostThree(tried: seq<Try>, portals: seq<Portal>, floating: string, flags: seq<string>)
    requires tried <= Plan(portals, floating, Phases(flags))
    ensures |tried| <= 3 * |portals|
  {
    PlanSize(portals, floating, Phases(flags));
    assert |Phases(flags)| == 2 || |Phases(flags)| == 3;
  }

  /** The plan, phase by phase. */
  lemma PlanOf(portals: seq<Portal>, floating: string, flags: seq<string>)
    ensures var rest := Fallbacks(portals, floating, Plain(flags));
            Plan(portals, floating, Phases(flags)) ==
              if Versions(flags) > 0 then Phase(portals, floating, flags) + rest else rest
  {
    var two := [With42(Plain(flags)), With3(Plain(flags))];
    assert two[1..] == [With3(Plain(flags))] && two[1..][1..] == [];
    assert Plan(portals, floating, two[1..]) == Phase(portals, floating, two[1]) by {
      assert Plan(portals, floating, two[1..][1..]) == [];
    }
    assert Plan(portals, floating, two) == Phase(portals, floating, two[0]) + Phase(portals, floating, two[1]);
    if Versions(flags) > 0 {
      assert Phases(flags)[1..] == two;
    } else {
      assert Phases(flags) == two;
    }
  }
}
