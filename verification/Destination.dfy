/**
 Which destinations an allowlisted session may reach: rules, what they match, how a session's
 list is narrowed out of the runtime's, and which resolved addresses a match extends to.
 */
module Destination {
  import opened Common

  // ---- addresses ----

  datatype IpAddr =
    | V4(a: nat, b: nat, c: nat, d: nat)
    | V6(s0: nat, s1: nat, s2: nat, s3: nat, s4: nat, s5: nat, s6: nat, s7: nat)

  /** Reading and printing addresses as text belongs to the standard library: any pair of functions. */
  datatype AddressText = AddressText(parse: string -> Option<IpAddr>, show: IpAddr -> string)

  /** The IPv4 address inside `::ffff:0:0/96`, and every other address as it is. */
  function Unmap(addr: IpAddr): IpAddr {
    match addr
    case V4(_, _, _, _) => addr
    case V6(s0, s1, s2, s3, s4, s5, s6, s7) =>
      if s0 == s1 == s2 == s3 == s4 == 0 && s5 == 0xffff then V4(s6 / 256, s6 % 256, s7 / 256, s7 % 256) else addr
  }

  /** The ranges no public host answers from, beginning with loopback, private and link-local ones. */
  predicate IsLocalRange(addr: IpAddr) {
    match addr
    case V4(a, b, c, d) =>
      || a == 127                                          // loopback
      || a == 10 || (a == 172 && 16 <= b < 32) || (a == 192 && b == 168)  // private
      || (a == 169 && b == 254)                            // link-local
      || (a == b == c == d == 255)                         // broadcast
      || (a == b == c == d == 0)                           // unspecified
      || 224 <= a < 240                                    // multicast
      || (a == 100 && 64 <= b < 128)                       // carrier-grade NAT
    case V6(s0, s1, s2, s3, s4, s5, s6, s7) =>
      || (s0 == s1 == s2 == s3 == s4 == s5 == s6 == 0 && s7 <= 1)  // unspecified, loopback
      || s0 / 256 == 0xff                                  // multicast
      || 0xfc00 <= s0 < 0xfe00                             // unique local
      || 0xfe80 <= s0 < 0xfec0                             // link-local
  }

  // ---- the same ranges as blocks of numbers ----

  /** An IPv4 address as a number, and the first `bits` bits of it. */
  function Number4(a: nat, b: nat, c: nat, d: nat): nat {
    0x100_0000 * a + 0x1_0000 * b + 0x100 * c + d
  }

  /** From the first to the last address of each block: this host, private, shared, loopback, link-local, multicast. */
  predicate InLocalBlock(n: nat) {
    || n == 0x0000_0000                          // 0.0.0.0
    || 0x0a00_0000 <= n <= 0x0aff_ffff           // 10.0.0.0/8
    || 0x6440_0000 <= n <= 0x647f_ffff           // 100.64.0.0/10
    || 0x7f00_0000 <= n <= 0x7fff_ffff           // 127.0.0.0/8
    || 0xa9fe_0000 <= n <= 0xa9fe_ffff           // 169.254.0.0/16
    || 0xac10_0000 <= n <= 0xac1f_ffff           // 172.16.0.0/12
    || 0xc0a8_0000 <= n <= 0xc0a8_ffff           // 192.168.0.0/16
    || 0xe000_0000 <= n <= 0xefff_ffff           // 224.0.0.0/4
    || n == 0xffff_ffff                          // 255.255.255.255
  }

  predicate IsOctets(a: nat, b: nat, c: nat, d: nat) {
    a < 0x100 && b < 0x100 && c < 0x100 && d < 0x100
  }

  lemma LocalBlocks(a: nat, b: nat, c: nat, d: nat)
    requires IsOctets(a, b, c, d)
    ensures IsLocalRange(V4(a, b, c, d)) <==> InLocalBlock(Number4(a, b, c, d))
  {
  }

  /** An IPv4-mapped address is taken for the IPv4 address it carries. */
  lemma MappedIsUnmapped(a: nat, b: nat, c: nat, d: nat)
    requires IsOctets(a, b, c, d)
    ensures Unmap(V6(0, 0, 0, 0, 0, 0xffff, 0x100 * a + b, 0x100 * c + d)) == V4(a, b, c, d)
    ensures Unmap(V4(a, b, c, d)) == V4(a, b, c, d)
  {
  }

  // ---- rules and what they match ----

  datatype HostPattern = Exact(name: string) | Subdomains(name: string) | Address(addr: IpAddr)

  datatype Rule = Rule(host: HostPattern, port: nat)

  /** A destination holds a normalised host. */
  datatype Dest = Dest(host: string, port: nat)

  /** `host` ends in `.suffix` with something in front. */
  predicate Under(host: string, suffix: string) {
    |suffix| + 2 <= |host| && host[|host| - |suffix|..] == suffix && host[|host| - |suffix| - 1] == '.'
  }

  predicate PatternCovers(ip: AddressText, p: HostPattern, host: string) {
    match p
    case Exact(name) => name == host
    case Subdomains(suffix) => Under(host, suffix)
    case Address(addr) => ip.parse(host) == Some(addr)
  }

  predicate PatternCoveredBy(p: HostPattern, wider: HostPattern) {
    match (p, wider)
    case (Exact(n), Exact(m)) => n == m
    case (Address(a), Address(b)) => a == b
    case (Exact(n), Subdomains(suffix)) => Under(n, suffix)
    case (Subdomains(inner), Subdomains(outer)) => Under(inner, outer)
    case (_, _) => false
  }

  predicate CoveredBy(r: Rule, wider: Rule) {
    r.port == wider.port && PatternCoveredBy(r.host, wider.host)
  }

  datatype Denial = NoRule | WrongPort(allowed: seq<nat>) | LocalAddress(addr: IpAddr)
  datatype Verdict = Allow | Deny(why: Denial)

  type Allowlist = seq<Rule>

  predicate Matches(ip: AddressText, r: Rule, dest: Dest) {
    PatternCovers(ip, r.host, dest.host) && r.port == dest.port
  }

  predicate Allowed(ip: AddressText, rules: Allowlist, dest: Dest) {
    exists k :: 0 <= k < |rules| && Matches(ip, rules[k], dest)
  }

  /** Some rule writes the address itself down for this port. */
  predicate Named(rules: Allowlist, port: nat, addr: IpAddr) {
    exists k :: 0 <= k < |rules| && rules[k].port == port && rules[k].host.Address? && Unmap(rules[k].host.addr) == addr
  }

  // ---- deciding ----

  lemma FirstIsLeast(ports: seq<nat>)
    requires Ascending(ports) && ports != []
    ensures Ascending(ports[1..]) && forall q :: q in ports[1..] ==> ports[0] < q
    ensures forall q :: q in ports <==> q == ports[0] || q in ports[1..]
  {
    assert ports == [ports[0]] + ports[1..];
  }

  /** Into a strictly ascending list, once. */
  function InsertPort(ports: seq<nat>, p: nat): (r: seq<nat>)
    requires Ascending(ports)
    ensures Ascending(r) && forall q :: q in r <==> q in ports || q == p
  {
    if ports == [] then [p]
    else if ports[0] == p then ports
    else if p < ports[0] then
      FirstIsLeast(ports);
      AscendingCons(p, ports);
      [p] + ports
    else
      var rest := InsertPort(ports[1..], p);
      FirstIsLeast(ports);
      AscendingCons(ports[0], rest);
      [ports[0]] + rest
  }

  /** The first question: may this name and port be reached, and on which ports otherwise. */
  method Decide(ip: AddressText, rules: Allowlist, dest: Dest) returns (v: Verdict)
    ensures v == Allow <==> Allowed(ip, rules, dest)
    ensures v == Deny(NoRule) <==> forall k :: 0 <= k < |rules| ==> !PatternCovers(ip, rules[k].host, dest.host)
    ensures v.Deny? ==> v.why == NoRule || (v.why.WrongPort? && v.why.allowed != [])
    ensures v.Deny? && v.why.WrongPort? ==>
              && Ascending(v.why.allowed) && dest.port !in v.why.allowed
              && forall p :: p in v.why.allowed <==>
                   exists k :: 0 <= k < |rules| && PatternCovers(ip, rules[k].host, dest.host) && rules[k].port == p
  {
    var allowed: seq<nat> := [];
    var hit := false;
    for i := 0 to |rules|
      invariant hit <==> exists k :: 0 <= k < i && Matches(ip, rules[k], dest)
      invariant Ascending(allowed)
      invariant forall p :: p in allowed <==>
                  exists k :: 0 <= k < i && PatternCovers(ip, rules[k].host, dest.host) && rules[k].port == p
    {
      if PatternCovers(ip, rules[i].host, dest.host) {
        hit := hit || rules[i].port == dest.port;
        allowed := InsertPort(allowed, rules[i].port);
      }
    }
    if hit { return Allow; }
    if allowed == [] {
      forall k | 0 <= k < |rules| ensures !PatternCovers(ip, rules[k].host, dest.host) {
        assert rules[k].port !in allowed;
      }
      return Deny(NoRule);
    }
    assert allowed[0] in allowed;
    return Deny(WrongPort(allowed));
  }

  /** The second question: is a resolved address one the matching rule was talking about. */
  method AcceptsAddress(ip: AddressText, rules: Allowlist, dest: Dest, addr: IpAddr) returns (v: Verdict)
    ensures v == Allow <==> Accepted(ip, rules, dest, addr)
    ensures Allowed(ip, rules, dest) && v.Deny? ==> v.why == LocalAddress(Unmap(addr))
  {
    v := Decide(ip, rules, dest);
    if v != Allow { return; }
    var plain := Unmap(addr);
    if !IsLocalRange(plain) { return Allow; }
    for i := 0 to |rules|
      invariant forall k :: 0 <= k < i ==>
                  !(rules[k].port == dest.port && rules[k].host.Address? && Unmap(rules[k].host.addr) == plain)
    {
      if rules[i].port == dest.port && rules[i].host.Address? && Unmap(rules[i].host.addr) == plain {
        return Allow;
      }
    }
    return Deny(LocalAddress(plain));
  }

  predicate Accepted(ip: AddressText, rules: Allowlist, dest: Dest, addr: IpAddr) {
    Allowed(ip, rules, dest) && (IsLocalRange(Unmap(addr)) ==> Named(rules, dest.port, Unmap(addr)))
  }

  /** Rules that write down no address. */
  predicate OnlyNames(rules: Allowlist) {
    forall k :: 0 <= k < |rules| ==> !rules[k].host.Address?
  }

  /**
   A list of names lets no resolution reach this machine or its network: of the IPv4 addresses,
   plain or mapped, an allowed name may lead to exactly those outside the local blocks.
   */
  lemma NamesReachNothingLocal(ip: AddressText, rules: Allowlist, dest: Dest, a: nat, b: nat, c: nat, d: nat)
    requires OnlyNames(rules) && Allowed(ip, rules, dest) && IsOctets(a, b, c, d)
    ensures Accepted(ip, rules, dest, V4(a, b, c, d)) <==> !InLocalBlock(Number4(a, b, c, d))
    ensures Accepted(ip, rules, dest, V6(0, 0, 0, 0, 0, 0xffff, 0x100 * a + b, 0x100 * c + d))
            <==> !InLocalBlock(Number4(a, b, c, d))
  {
    LocalBlocks(a, b, c, d);
    MappedIsUnmapped(a, b, c, d);
  }

  /** Of the IPv6 addresses that are not mapped, to those outside ::, ::1, fc00::/7, fe80::/10 and ff00::/8. */
  lemma NamesReachNoLocal6(ip: AddressText, rules: Allowlist, dest: Dest, addr: IpAddr)
    requires OnlyNames(rules) && Allowed(ip, rules, dest) && addr.V6? && addr.s0 < 0x1_0000 && Unmap(addr) == addr
    ensures Accepted(ip, rules, dest, addr) <==>
              && addr != V6(0, 0, 0, 0, 0, 0, 0, 0) && addr != V6(0, 0, 0, 0, 0, 0, 0, 1)
              && !(0xfc00 <= addr.s0 <= 0xfdff) && !(0xfe80 <= addr.s0 <= 0xfebf) && !(0xff00 <= addr.s0)
  {
  }

  /** An address written down for the port is accepted, mapped or plain, wherever it lies. */
  lemma NamedAddressAccepted(ip: AddressText, rules: Allowlist, dest: Dest, addr: IpAddr, k: nat)
    requires Allowed(ip, rules, dest) && k < |rules|
    requires rules[k].port == dest.port && rules[k].host.Address? && Unmap(rules[k].host.addr) == Unmap(addr)
    ensures Accepted(ip, rules, dest, addr)
  {
  }

  // ---- what a pattern matches ----

  /** A wildcard matches exactly the names with something and a dot in front of its own. */
  lemma UnderMeans(host: string, suffix: string)
    ensures Under(host, suffix) <==> exists head: string :: head != "" && host == head + "." + suffix
  {
    if Under(host, suffix) {
      var n := |host| - |suffix|;
      assert host == host[..n - 1] + "." + host[n..];
      assert host[..n - 1] != "";
    }
    if exists head: string :: head != "" && host == head + "." + suffix {
      var head: string :| head != "" && host == head + "." + suffix;
      assert host[|host| - |suffix|..] == suffix;
    }
  }

  // ---- narrowing never widens ----

  lemma UnderTransitive(host: string, inner: string, outer: string)
    requires Under(inner, outer) && (host == inner || Under(host, inner))
    ensures Under(host, outer)
  {
    assert inner == host[|host| - |inner|..];
    assert host[|host| - |outer|..] == inner[|inner| - |outer|..];
    assert host[|host| - |outer| - 1] == inner[|inner| - |outer| - 1];
  }

  lemma CoveredPatternMatches(ip: AddressText, p: HostPattern, wider: HostPattern, host: string)
    requires PatternCoveredBy(p, wider) && PatternCovers(ip, p, host)
    ensures PatternCovers(ip, wider, host)
  {
    if p.Subdomains? && wider.Subdomains? {
      UnderTransitive(host, p.name, wider.name);
    }
  }

  /** What a successful narrowing establishes. */
  ghost predicate Narrows(rules: Allowlist, runtime: Allowlist) {
    forall i :: 0 <= i < |rules| ==> CoveredBySome(rules[i], runtime)
  }

  predicate CoveredBySome(r: Rule, runtime: Allowlist) {
    exists k :: 0 <= k < |runtime| && CoveredBy(r, runtime[k])
  }

  /** Whatever the narrowed list allows, to a name or to an address, the runtime's list allows. */
  lemma NarrowingNeverWidens(ip: AddressText, rules: Allowlist, runtime: Allowlist, dest: Dest, addr: IpAddr)
    requires Narrows(rules, runtime)
    ensures Allowed(ip, rules, dest) ==> Allowed(ip, runtime, dest)
    ensures Accepted(ip, rules, dest, addr) ==> Accepted(ip, runtime, dest, addr)
  {
    if Allowed(ip, rules, dest) {
      var i :| 0 <= i < |rules| && Matches(ip, rules[i], dest);
      assert CoveredBySome(rules[i], runtime);
      var k :| 0 <= k < |runtime| && CoveredBy(rules[i], runtime[k]);
      CoveredPatternMatches(ip, rules[i].host, runtime[k].host, dest.host);
      assert Matches(ip, runtime[k], dest);
    }
    var plain := Unmap(addr);
    if Named(rules, dest.port, plain) {
      var i :| 0 <= i < |rules| && rules[i].port == dest.port
            && rules[i].host.Address? && Unmap(rules[i].host.addr) == plain;
      assert CoveredBySome(rules[i], runtime);
      var k :| 0 <= k < |runtime| && CoveredBy(rules[i], runtime[k]);
      assert runtime[k].host.Address?;
    }
  }

  ghost predicate Chain(lists: seq<Allowlist>) {
    lists != [] && forall i :: 0 <= i < |lists| - 1 ==> Narrows(lists[i + 1], lists[i])
  }

  /** Through any number of narrowings. */
  lemma {:induction false} ChainNeverWidens(ip: AddressText, lists: seq<Allowlist>, dest: Dest, addr: IpAddr)
    requires Chain(lists)
    ensures Allowed(ip, lists[|lists|-1], dest) ==> Allowed(ip, lists[0], dest)
    ensures Accepted(ip, lists[|lists|-1], dest, addr) ==> Accepted(ip, lists[0], dest, addr)
  {
    if |lists| > 1 {
      var n := |lists| - 1;
      assert Narrows(lists[n - 1 + 1], lists[n - 1]);
      NarrowingNeverWidens(ip, lists[n], lists[n - 1], dest, addr);
      assert Chain(lists[..n]) by {
        forall i | 0 <= i < n - 1 ensures Narrows(lists[..n][i + 1], lists[..n][i]) {
          assert Narrows(lists[i + 1], lists[i]);
        }
      }
      ChainNeverWidens(ip, lists[..n], dest, addr);
    }
  }
}
