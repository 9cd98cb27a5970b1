/**
 * Which NFS server a backing mount comes from, and whether the driver would
 * still mount from it (pkg/driver/utils.go, foreignBackingMountServer and
 * serverIn).
 */
module ForeignMount {
  import opened Wrappers

  /** A parsed address; two spellings of one address are the same IP. */
  type IP = nat

  /** Address parsing and DNS; a missing name is a failed lookup. */
  datatype Resolver = Resolver(literals: map<string, IP>, names: map<string, seq<IP>>)

  /**
   * Everything foreignBackingMountServer asks for. `server` is None when the
   * mount table cannot be read and Some("") when no NFS mount is there;
   * `addresses` is None when the Anvil cannot be asked, and otherwise the
   * parse of each listed address (None for one that is not an IP).
   */
  datatype View = View(server: Option<string>, addresses: Option<seq<Option<IP>>>, fqdn: string, dns: Resolver)

  /** The addresses a server name stands for; None when its lookup fails. */
  function Candidates(server: string, dns: Resolver): Option<seq<IP>> {
    if server in dns.literals then Some([dns.literals[server]])
    else if server in dns.names then Some(dns.names[server])
    else None
  }

  /** The Anvil's addresses together with those of the StorageClass FQDN. */
  function Known(v: View): seq<Option<IP>>
    requires v.addresses.Some?
  {
    v.addresses.value +
    if v.fqdn != "" && v.fqdn in v.dns.names
    then seq(|v.dns.names[v.fqdn]|, i requires 0 <= i < |v.dns.names[v.fqdn]| => Some(v.dns.names[v.fqdn][i]))
    else []
  }

  /** The server is one of the addresses, or nobody can tell. */
  ghost predicate MaybeCurrent(server: string, addresses: seq<Option<IP>>, dns: Resolver) {
    var c := Candidates(server, dns);
    c.None? || exists ip :: ip in c.value && Some(ip) in addresses
  }

  /**
   * Mount table, Anvil and server name answered, there is something to compare
   * with, and nothing there covers the server. A failed lookup of the FQDN
   * only leaves its addresses out.
   */
  ghost predicate Foreign(v: View) {
    && v.server.Some? && v.server.value != ""
    && v.addresses.Some? && Known(v) != []
    && !MaybeCurrent(v.server.value, Known(v), v.dns)
  }

  /** The server is an address, or a name whose lookup answers. */
  predicate Resolves(server: string, dns: Resolver) {
    server in dns.literals || server in dns.names
  }

  /** ip is the address the server is written as, or one of all those its name stands for. */
  predicate StandsFor(server: string, ip: IP, dns: Resolver) {
    if server in dns.literals then ip == dns.literals[server] else server in dns.names && ip in dns.names[server]
  }

  /** The Anvil lists the address, or the FQDN stands for it. */
  predicate Offered(ip: IP, v: View)
    requires v.addresses.Some?
  {
    Some(ip) in v.addresses.value || (v.fqdn != "" && v.fqdn in v.dns.names && ip in v.dns.names[v.fqdn])
  }

  /**
   * The mount table, the Anvil and the lookup of the server answered, there is
   * some address to compare with, and none of those the server stands for is
   * listed by the Anvil or one of the FQDN's that could be looked up.
   */
  ghost predicate Provably(v: View) {
    && v.server.Some? && v.server.value != "" && v.addresses.Some?
    && (v.addresses.value != [] || (v.fqdn != "" && v.fqdn in v.dns.names && v.dns.names[v.fqdn] != []))
    && Resolves(v.server.value, v.dns)
    && forall ip :: StandsFor(v.server.value, ip, v.dns) ==> !Offered(ip, v)
  }

  lemma ForeignExactly(v: View)
    ensures Foreign(v) <==> Provably(v)
  {
    if v.server.Some? && v.addresses.Some? {
      KnownAre(v, if v.fqdn != "" && v.fqdn in v.dns.names then v.dns.names[v.fqdn] else []);
      if Resolves(v.server.value, v.dns) {
        var c := Candidates(v.server.value, v.dns).value;
        assert forall ip: IP :: ip in c <==> StandsFor(v.server.value, ip, v.dns);
        assert forall ip: IP :: Some(ip) in Known(v) <==> Offered(ip, v);
      }
    }
  }

  /** The FQDN lookup, if there is one to make, answers. */
  predicate FqdnAnswered(v: View) {
    v.fqdn == "" || v.fqdn in v.dns.names
  }

  /** Every other lookup answers. */
  predicate OthersAnswered(v: View) {
    v.server.Some? && v.addresses.Some? && Candidates(v.server.value, v.dns).Some?
  }

  /** Some address of the server is among these. */
  ghost predicate Covers(ips: seq<IP>, server: string, dns: Resolver) {
    var c := Candidates(server, dns);
    c.Some? && exists ip :: ip in c.value && ip in ips
  }

  /** Some address of the server is among those the Anvil lists. */
  ghost predicate Listed(v: View)
    requires OthersAnswered(v)
  {
    exists ip :: ip in Candidates(v.server.value, v.dns).value && Some(ip) in v.addresses.value
  }

  /**
   * A lookup that does not answer keeps the mount, except that of the FQDN.
   * With all answers in, the verdict is what it should be: the server is on
   * neither list, and there is one.
   */
  lemma UnansweredKeeps(v: View)
    ensures !OthersAnswered(v) ==> !Foreign(v)
    ensures OthersAnswered(v) && FqdnAnswered(v) ==>
      var ips := if v.fqdn == "" then [] else v.dns.names[v.fqdn];
      Foreign(v) <==>
        && v.server.value != "" && (v.addresses.value != [] || ips != [])
        && !Listed(v) && !Covers(ips, v.server.value, v.dns)
  {
    if OthersAnswered(v) && FqdnAnswered(v) {
      var ips := if v.fqdn == "" then [] else v.dns.names[v.fqdn];
      KnownAre(v, ips);
    }
  }

  lemma KnownAre(v: View, ips: seq<IP>)
    requires v.addresses.Some? &&
      (if v.fqdn != "" && v.fqdn in v.dns.names then ips == v.dns.names[v.fqdn] else ips == [])
    ensures Known(v) == [] <==> v.addresses.value == [] && ips == []
    ensures forall ip :: Some(ip) in Known(v) <==> Some(ip) in v.addresses.value || ip in ips
  {
    forall ip ensures Some(ip) in Known(v) <==> Some(ip) in v.addresses.value || ip in ips {
      if ip in ips {
        var i :| 0 <= i < |ips| && ips[i] == ip;
        assert Known(v)[|v.addresses.value| + i] == Some(ip);
      }
    }
  }

  /** A foreign server is on neither list that could be read. */
  lemma ForeignIsUnlisted(v: View)
    requires Foreign(v)
    ensures v.server.Some? && v.addresses.Some? && Resolves(v.server.value, v.dns)
    ensures forall ip :: StandsFor(v.server.value, ip, v.dns) ==> !Offered(ip, v)
  {
    KnownAre(v, if v.fqdn != "" && FqdnAnswered(v) then v.dns.names[v.fqdn] else []);
  }

  /** The same view, had the FQDN resolved to these addresses. */
  function Resolved(v: View, ips: seq<IP>): View {
    v.(dns := v.dns.(names := v.dns.names[v.fqdn := ips]))
  }

  /**
   * What a failed FQDN lookup changes, for any addresses it would have given.
   * A mount is taken for foreign on account of the failure exactly when the
   * Anvil lists addresses, none of them the server's, and one the FQDN would
   * have given is. A mount is kept on account of it exactly when the Anvil
   * lists none and those it would have given are not the server's (or when the
   * server is the FQDN, and it stands for no address).
   */
  lemma FqdnLookupDecides(v: View, ips: seq<IP>)
    requires v.fqdn != "" && v.fqdn !in v.dns.names
    ensures Foreign(v) && !Foreign(Resolved(v, ips)) <==>
      && OthersAnswered(v) && v.server.value != "" && v.addresses.value != []
      && !Listed(v) && Covers(ips, v.server.value, v.dns)
    ensures !Foreign(v) && Foreign(Resolved(v, ips)) <==>
      && v.server.Some? && v.server.value != "" && v.addresses.Some?
      && Candidates(v.server.value, Resolved(v, ips).dns).Some?
      && (if v.addresses.value == [] then ips != [] && !Covers(ips, v.server.value, Resolved(v, ips).dns)
          else v.server.value == v.fqdn && v.fqdn !in v.dns.literals && ips == [])
  {
    if v.server.Some? && v.addresses.Some? {
      var r := Resolved(v, ips);
      KnownAre(v, []);
      KnownAre(r, ips);
      if v.server.value == v.fqdn && v.fqdn !in v.dns.literals {
        assert Candidates(v.fqdn, r.dns) == Some(ips);
        if ips != [] {
          assert ips[0] in ips && Some(ips[0]) in Known(r);
        }
      } else {
        assert Candidates(v.server.value, r.dns) == Candidates(v.server.value, v.dns);
      }
    }
  }

  /** A mount from the FQDN's own address, taken for foreign because the FQDN did not resolve just then. */
  lemma UnresolvedFqdnLosesMount()
    ensures var v := View(Some("10.0.0.9"), Some([Some(1)]), "nfs.example", Resolver(map["10.0.0.9" := 9], map[]));
            Foreign(v) && !Foreign(Resolved(v, [9]))
  {
    var v := View(Some("10.0.0.9"), Some([Some(1)]), "nfs.example", Resolver(map["10.0.0.9" := 9], map[]));
    FqdnLookupDecides(v, [9]);
    assert 9 in Candidates("10.0.0.9", v.dns).value;
  }

  method ServerIn(server: string, addresses: seq<Option<IP>>, dns: Resolver) returns (current: bool)
    ensures current <==> MaybeCurrent(server, addresses, dns)
    ensures current <==>
      if server in dns.literals then Some(dns.literals[server]) in addresses
      else server !in dns.names || exists ip :: ip in dns.names[server] && Some(ip) in addresses
  {
    var candidates := Candidates(server, dns);
    if candidates.None? {
      return true;
    }
    for i := 0 to |addresses|
      invariant forall ip :: ip in candidates.value ==> Some(ip) !in addresses[..i]
    {
      for j := 0 to |candidates.value|
        invariant forall ip :: ip in candidates.value[..j] ==> Some(ip) != addresses[i]
      {
        if addresses[i] == Some(candidates.value[j]) {
          return true;
        }
      }
      assert candidates.value[..|candidates.value|] == candidates.value;
      assert addresses[..i + 1] == addresses[..i] + [addresses[i]];
    }
    assert addresses[..|addresses|] == addresses;
    return false;
  }

  /** The server of the mount when no address that could be looked up is its own, else None. */
  method ForeignServer(v: View) returns (server: Option<string>)
    ensures server.Some? <==> Foreign(v)
    ensures server.Some? ==> server == v.server
    ensures server.Some? <==> Provably(v)
  {
    if v.server.None? || v.server.value == "" || v.addresses.None? {
      return None;
    }
    var addresses := v.addresses.value;
    if v.fqdn != "" && v.fqdn in v.dns.names {
      var ips := v.dns.names[v.fqdn];
      for i := 0 to |ips|
        invariant |addresses| == |v.addresses.value| + i
        invariant addresses == v.addresses.value + seq(i, k requires 0 <= k < i => Some(ips[k]))
      {
        addresses := addresses + [Some(ips[i])];
      }
    }
    assert addresses == Known(v);
    ForeignExactly(v);
    if |addresses| == 0 {
      return None;
    }
    var current := ServerIn(v.server.value, addresses, v.dns);
    return if current then None else v.server;
  }
}
