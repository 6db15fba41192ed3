/**
The network policies built from declared egress: rules per server, and the two flavors of a policy's
backstop. Both fail closed: a host that is not an address opens nothing in a Kubernetes NetworkPolicy.
*/
module NetworkBuilder {
  import opened Wrappers
  import opened Cidr

  // ---- What a NetworkPolicy says ----

  /** Pods picked by the labels of their namespace and their own. */
  datatype PodSelector = PodSelector(namespaceLabels: map<string, string>, podLabels: map<string, string>)

  datatype Peer = IpBlock(prefix: Prefix) | Pods(selector: PodSelector)

  /** No peers means any destination, no ports any port. */
  datatype Rule = Rule(to: seq<Peer>, ports: seq<int>)

  /**
  Where a packet goes: an address, the names the DNS proxy has seen resolve to it, the labels of the pod
  behind it when there is one, and whether it is outside the cluster.
  */
  datatype Destination = Destination(
    address: Address,
    names: set<string>,
    pod: Option<PodSelector>,
    world: bool
  )

  predicate Carries(labels: map<string, string>, wanted: map<string, string>) {
    forall k | k in wanted :: k in labels && labels[k] == wanted[k]
  }

  predicate Selects(s: PodSelector, d: Destination) {
    d.pod.Some? && Carries(d.pod.value.namespaceLabels, s.namespaceLabels) && Carries(d.pod.value.podLabels, s.podLabels)
  }

  predicate InBlock(p: Prefix, d: Destination) {
    ValidPrefix(p) && Contains(p, d.address)
  }

  predicate MatchesPeer(p: Peer, d: Destination) {
    match p
    case IpBlock(prefix) => InBlock(prefix, d)
    case Pods(selector) => Selects(selector, d)
  }

  predicate RuleAdmits(r: Rule, d: Destination, port: int) {
    && (r.to == [] || exists p :: p in r.to && MatchesPeer(p, d))
    && (r.ports == [] || port in r.ports)
  }

  predicate Admits(rules: seq<Rule>, d: Destination, port: int) {
    exists r :: r in rules && RuleAdmits(r, d, port)
  }

  lemma AdmitsBoth(a: seq<Rule>, b: seq<Rule>, d: Destination, port: int)
    ensures Admits(a + b, d, port) <==> Admits(a, d, port) || Admits(b, d, port)
  {
  }

  // ---- DNS and loopback ----

  /** The resolvers an operator is configured with beside kube-dns. */
  datatype DnsConfig = DnsConfig(selectors: seq<PodSelector>, cidrs: seq<Prefix>)

  const KUBE_DNS :=
    PodSelector(map["kubernetes.io/metadata.name" := "kube-system"], map["k8s-app" := "kube-dns"])

  const LOOPBACK := Prefix(Quad(127, 0), 8)

  const DNS_PORT := 53

  method DnsEgressRule(config: DnsConfig) returns (r: Rule)
    ensures r == DnsRule(config)
  {
    var to := [Pods(KUBE_DNS)];
    for i := 0 to |config.selectors|
      invariant to == [Pods(KUBE_DNS)] + PodPeers(config.selectors[..i])
    {
      assert config.selectors[..i + 1][..i] == config.selectors[..i];
      to := to + [Pods(config.selectors[i])];
    }
    assert config.selectors[..|config.selectors|] == config.selectors;
    r := Rule(to + BlockPeers(config.cidrs), [DNS_PORT, DNS_PORT]);
  }

  function PodPeers(selectors: seq<PodSelector>): (peers: seq<Peer>)
    ensures forall p :: p in peers <==> p.Pods? && p.selector in selectors
  {
    if selectors == [] then []
    else PodPeers(selectors[..|selectors| - 1]) + [Pods(selectors[|selectors| - 1])]
  }

  function BlockPeers(cidrs: seq<Prefix>): (peers: seq<Peer>)
    ensures forall p :: p in peers <==> p.IpBlock? && p.prefix in cidrs
  {
    if cidrs == [] then [] else BlockPeers(cidrs[..|cidrs| - 1]) + [IpBlock(cidrs[|cidrs| - 1])]
  }

  /** UDP and TCP port 53, to the resolvers and to nowhere else. */
  function DnsRule(config: DnsConfig): Rule {
    Rule([Pods(KUBE_DNS)] + PodPeers(config.selectors) + BlockPeers(config.cidrs), [DNS_PORT, DNS_PORT])
  }

  predicate IsResolver(config: DnsConfig, d: Destination) {
    || Selects(KUBE_DNS, d)
    || (exists s :: s in config.selectors && Selects(s, d))
    || (exists p :: p in config.cidrs && InBlock(p, d))
  }

  /** kube-dns: the pods of that label in the namespace of that name. */
  lemma KubeDnsIs(d: Destination)
    ensures Selects(KUBE_DNS, d) <==>
      && d.pod.Some?
      && "kubernetes.io/metadata.name" in d.pod.value.namespaceLabels
      && d.pod.value.namespaceLabels["kubernetes.io/metadata.name"] == "kube-system"
      && "k8s-app" in d.pod.value.podLabels
      && d.pod.value.podLabels["k8s-app"] == "kube-dns"
  {
    assert "kubernetes.io/metadata.name" in KUBE_DNS.namespaceLabels && "k8s-app" in KUBE_DNS.podLabels;
  }

  /** Loopback: 127.0.0.0 to 127.255.255.255. */
  lemma LoopbackIs(d: Destination)
    ensures InBlock(LOOPBACK, d) <==> d.address.V4? && 0x7f00_0000 <= d.address.n < 0x8000_0000
  {
    RangeIs(LOOPBACK, d.address, 127, 128, 0, 3, 0x8000_0000);
  }

  lemma DnsRuleAdmits(config: DnsConfig, d: Destination, port: int)
    ensures RuleAdmits(DnsRule(config), d, port) <==> port == 53 && IsResolver(config, d)
  {
    var to := DnsRule(config).to;
    assert Pods(KUBE_DNS) in to;
    assert forall s :: s in config.selectors ==> Pods(s) in to;
    assert forall p :: p in config.cidrs ==> IpBlock(p) in to;
  }

  // ---- A server's own rules ----

  /** One declared destination; a rule without a CIDR has only a host. */
  datatype EgressRule = EgressRule(host: string, port: int, cidr: Option<Prefix>)

  datatype Capabilities = Capabilities(dnsAllowed: Option<bool>, loopbackAllowed: Option<bool>, egress: seq<EgressRule>)

  /** None for a host-only rule: ports without peers would open those ports to every destination. */
  function TranslateEgressRule(rule: EgressRule): Option<Rule> {
    if rule.cidr.None? then None
    else Some(Rule([IpBlock(rule.cidr.value)], if rule.port > 0 then [rule.port] else []))
  }

  predicate Declared(rules: seq<EgressRule>, d: Destination, port: int) {
    exists r :: r in rules && r.cidr.Some? && InBlock(r.cidr.value, d) && (r.port <= 0 || r.port == port)
  }

  predicate DnsOpen(caps: Capabilities) {
    caps.dnsAllowed.None? || caps.dnsAllowed.value
  }

  predicate LoopbackOpen(caps: Capabilities) {
    caps.loopbackAllowed.Some? && caps.loopbackAllowed.value
  }

  /**
  Whatever the packet, it is let out exactly when the spec names its address in a CIDR with its port, or
  it is a query to a resolver and DNS was not turned off, or it is loopback and that was opted into.
  */
  method BuildEgressRules(caps: Capabilities, config: DnsConfig) returns (rules: seq<Rule>)
    ensures forall d, port :: Admits(rules, d, port) <==>
      (|| (exists r :: r in caps.egress && r.cidr.Some? && InBlock(r.cidr.value, d) && (r.port <= 0 || r.port == port))
       || (caps.dnsAllowed != Some(false) && port == 53 && IsResolver(config, d))
       || (caps.loopbackAllowed == Some(true) && InBlock(LOOPBACK, d)))
  {
    rules := [];
    if caps.dnsAllowed.None? || caps.dnsAllowed.value {
      var dns := DnsEgressRule(config);
      rules := rules + [dns];
    }
    if caps.loopbackAllowed.Some? && caps.loopbackAllowed.value {
      rules := rules + [Rule([IpBlock(LOOPBACK)], [])];
    }
    ghost var fixed := rules;
    for i := 0 to |caps.egress|
      invariant forall d, port :: Admits(rules, d, port) <==>
        Admits(fixed, d, port) || Declared(caps.egress[..i], d, port)
    {
      var rule := TranslateEgressRule(caps.egress[i]);
      ghost var before := rules;
      if rule.Some? {
        rules := rules + [rule.value];
      }
      forall d, port ensures Admits(rules, d, port) <==>
        Admits(fixed, d, port) || Declared(caps.egress[..i + 1], d, port)
      {
        DeclaredStep(caps.egress, i, d, port, before, rules);
      }
    }
    assert caps.egress[..|caps.egress|] == caps.egress;
    forall d, port ensures Admits(fixed, d, port) <==>
      (|| (DnsOpen(caps) && port == DNS_PORT && IsResolver(config, d))
       || (LoopbackOpen(caps) && InBlock(LOOPBACK, d)))
    {
      FixedRulesAdmit(caps, config, fixed, d, port);
    }
  }

  lemma DeclaredStep(egress: seq<EgressRule>, i: nat, d: Destination, port: int, before: seq<Rule>, after: seq<Rule>)
    requires i < |egress|
    requires after == if egress[i].cidr.None? then before else before + [TranslateEgressRule(egress[i]).value]
    ensures Admits(after, d, port) || Declared(egress[..i], d, port) <==>
            Admits(before, d, port) || Declared(egress[..i + 1], d, port)
    ensures Declared(egress[..i], d, port) ==> Declared(egress[..i + 1], d, port)
    ensures Admits(after, d, port) ==> Admits(before, d, port) || Declared(egress[..i + 1], d, port)
  {
    var e := egress[i];
    assert egress[..i + 1] == egress[..i] + [e];
    if e.cidr.Some? {
      var r := TranslateEgressRule(e).value;
      AdmitsBoth(before, [r], d, port);
      assert r.to[0] == IpBlock(e.cidr.value) && r.to[0] in r.to;
      assert RuleAdmits(r, d, port) <==> InBlock(e.cidr.value, d) && (e.port <= 0 || e.port == port);
      assert Admits([r], d, port) <==> RuleAdmits(r, d, port) by {
        assert [r][0] in [r];
      }
      assert e in egress[..i + 1];
    }
  }

  lemma FixedRulesAdmit(caps: Capabilities, config: DnsConfig, rules: seq<Rule>, d: Destination, port: int)
    requires rules == (if DnsOpen(caps) then [DnsRule(config)] else [])
                      + (if LoopbackOpen(caps) then [Rule([IpBlock(LOOPBACK)], [])] else [])
    ensures Admits(rules, d, port) <==>
      (|| (DnsOpen(caps) && port == DNS_PORT && IsResolver(config, d))
       || (LoopbackOpen(caps) && InBlock(LOOPBACK, d)))
  {
    var loop := Rule([IpBlock(LOOPBACK)], []);
    DnsRuleAdmits(config, d, port);
    assert loop.to[0] in loop.to;
    assert RuleAdmits(loop, d, port) <==> InBlock(LOOPBACK, d);
    assert forall r :: r in rules <==> (DnsOpen(caps) && r == DnsRule(config)) || (LoopbackOpen(caps) && r == loop);
  }

  // ---- A policy's backstop, in two flavors ----

  /** An allow rule of a CiliumNetworkPolicy; the endpoint rule is for port 53, with the DNS proxy on. */
  datatype CiliumRule = ToEndpoints(selectors: seq<PodSelector>) | ToFqdns(names: seq<string>) | ToCidrs(cidrs: seq<Prefix>)

  predicate CiliumRuleAdmits(r: CiliumRule, d: Destination, port: int) {
    match r
    case ToEndpoints(selectors) => port == DNS_PORT && exists s :: s in selectors && Selects(s, d)
    case ToFqdns(names) => exists n :: n in names && n in d.names
    case ToCidrs(cidrs) => exists p :: p in cidrs && InBlock(p, d)
  }

  /** A deny rule: these ports of everything outside the cluster. */
  datatype CiliumDeny = ToWorld(ports: seq<int>)

  datatype CiliumPolicy = CiliumPolicy(egress: seq<CiliumRule>, egressDeny: seq<CiliumDeny>)

  /** Deny is evaluated before allow. */
  predicate CiliumAdmits(p: CiliumPolicy, d: Destination, port: int) {
    && (forall r :: r in p.egressDeny ==> !(d.world && port in r.ports))
    && (exists r :: r in p.egress && CiliumRuleAdmits(r, d, port))
  }

  /** The hosts that are names, in order: the ones only a toFQDNs rule can allow. */
  function FqdnUpstreams(hosts: seq<Host>): seq<string> {
    if hosts == [] then []
    else
      var h := hosts[|hosts| - 1];
      FqdnUpstreams(hosts[..|hosts| - 1]) + if h.Name? then [h.text] else []
  }

  /** The other hosts, as blocks. */
  function CidrUpstreams(hosts: seq<Host>): (cidrs: seq<Prefix>)
    requires forall h :: h in hosts ==> ValidHost(h)
    ensures forall p :: p in cidrs <==> exists h :: h in hosts && AsCidr(h) == [p]
  {
    if hosts == [] then []
    else
      var h := hosts[|hosts| - 1];
      assert forall g :: g in hosts <==> g in hosts[..|hosts| - 1] || g == h;
      CidrUpstreams(hosts[..|hosts| - 1]) + AsCidr(h)
  }

  function BlockRules(cidrs: seq<Prefix>): seq<Rule> {
    if cidrs == [] then [] else BlockRules(cidrs[..|cidrs| - 1]) + [Rule([IpBlock(cidrs[|cidrs| - 1])], [])]
  }

  function VanillaEgress(hosts: seq<Host>, config: DnsConfig): seq<Rule>
    requires forall h :: h in hosts ==> ValidHost(h)
  {
    [DnsRule(config)] + BlockRules(CidrUpstreams(hosts))
  }

  /** The names and the blocks, each only when there are any, and port 53 kept inside the cluster. */
  function CiliumEgress(hosts: seq<Host>, config: DnsConfig): CiliumPolicy
    requires forall h :: h in hosts ==> ValidHost(h)
  {
    CiliumPolicy(
      [ToEndpoints([KUBE_DNS] + config.selectors)]
      + (if FqdnUpstreams(hosts) == [] then [] else [ToFqdns(FqdnUpstreams(hosts))])
      + (if CidrUpstreams(hosts) == [] then [] else [ToCidrs(CidrUpstreams(hosts))]),
      [ToWorld([DNS_PORT, DNS_PORT])])
  }

  method BuildEgressPolicyBackstop(hosts: seq<Host>, config: DnsConfig)
    returns (egress: seq<Rule>, unenforceableHosts: seq<string>)
    requires forall h :: h in hosts ==> ValidHost(h)
    ensures egress == VanillaEgress(hosts, config)
    ensures unenforceableHosts == FqdnUpstreams(hosts)
  {
    var dns := DnsEgressRule(config);
    egress := [dns];
    unenforceableHosts := [];
    for i := 0 to |hosts|
      invariant egress == VanillaEgress(hosts[..i], config)
      invariant unenforceableHosts == FqdnUpstreams(hosts[..i])
    {
      var h := hosts[i];
      VanillaEgressStep(hosts, i, config);
      var cidr := AsCidr(h);
      if cidr != [] {
        egress := egress + [Rule([IpBlock(cidr[0])], [])];
      } else {
        unenforceableHosts := unenforceableHosts + [h.text];
      }
    }
    assert hosts[..|hosts|] == hosts;
  }

  lemma VanillaEgressStep(hosts: seq<Host>, i: nat, config: DnsConfig)
    requires (forall h :: h in hosts ==> ValidHost(h)) && i < |hosts|
    ensures FqdnUpstreams(hosts[..i + 1]) == FqdnUpstreams(hosts[..i]) + if hosts[i].Name? then [hosts[i].text] else []
    ensures VanillaEgress(hosts[..i + 1], config) ==
      if hosts[i].Name? then VanillaEgress(hosts[..i], config)
      else VanillaEgress(hosts[..i], config) + [Rule([IpBlock(AsCidr(hosts[i])[0])], [])]
  {
    hide DnsRule, AsCidr, ValidHost;
    assert hosts[..i + 1][..i] == hosts[..i];
    var cidrs, cidr := CidrUpstreams(hosts[..i]), AsCidr(hosts[i]);
    assert CidrUpstreams(hosts[..i + 1]) == cidrs + cidr;
    if cidr == [] {
      assert cidrs + cidr == cidrs;
    } else {
      assert cidr == [cidr[0]];
      BlockRulesOneMore(cidrs, cidr[0]);
      Grouped([DnsRule(config)], BlockRules(cidrs), [Rule([IpBlock(cidr[0])], [])]);
    }
  }

  lemma BlockRulesOneMore(cidrs: seq<Prefix>, p: Prefix)
    ensures BlockRules(cidrs + [p]) == BlockRules(cidrs) + [Rule([IpBlock(p)], [])]
  {
    assert (cidrs + [p])[..|cidrs|] == cidrs;
  }

  lemma Grouped<T>(a: seq<T>, b: seq<T>, c: seq<T>)
    ensures a + (b + c) == (a + b) + c
  {
  }

  method DnsToWorldDeny() returns (deny: seq<CiliumDeny>)
    ensures deny == [ToWorld([53, 53])]
  {
    deny := [ToWorld([DNS_PORT, DNS_PORT])];
  }

  method BuildEgressPolicyCiliumNetworkPolicy(hosts: seq<Host>, config: DnsConfig) returns (cnp: CiliumPolicy)
    requires forall h :: h in hosts ==> ValidHost(h)
    ensures cnp == CiliumEgress(hosts, config)
  {
    var dnsEndpoints := [KUBE_DNS];
    for i := 0 to |config.selectors|
      invariant dnsEndpoints == [KUBE_DNS] + config.selectors[..i]
    {
      dnsEndpoints := dnsEndpoints + [config.selectors[i]];
    }
    var egress := [ToEndpoints(dnsEndpoints)];
    var fqdns: seq<string>, cidrs: seq<Prefix> := [], [];
    for i := 0 to |hosts|
      invariant fqdns == FqdnUpstreams(hosts[..i]) && cidrs == CidrUpstreams(hosts[..i])
    {
      assert hosts[..i + 1][..i] == hosts[..i];
      var cidr := AsCidr(hosts[i]);
      if cidr != [] {
        cidrs := cidrs + [cidr[0]];
      } else {
        fqdns := fqdns + [hosts[i].text];
      }
    }
    assert hosts[..|hosts|] == hosts && config.selectors[..|config.selectors|] == config.selectors;
    if |fqdns| > 0 {
      egress := egress + [ToFqdns(fqdns)];
    }
    if |cidrs| > 0 {
      egress := egress + [ToCidrs(cidrs)];
    }
    var deny := DnsToWorldDeny();
    cnp := CiliumPolicy(egress, deny);
  }

  /** The address is a literal, or lies in a block, that the policy names. */
  predicate NamedByAddress(hosts: seq<Host>, d: Destination)
    requires forall h :: h in hosts ==> ValidHost(h)
  {
    exists h :: h in hosts && Denotes(h, d.address)
  }

  /** The address lies in ::/32, and the policy names some IPv4-mapped IPv6 literal. */
  predicate SpilledByMapped(hosts: seq<Host>, d: Destination) {
    InZeros(d.address) && exists h :: h in hosts && IsMappedLiteral(h)
  }

  lemma {:induction false} BlockRulesAdmit(cidrs: seq<Prefix>, d: Destination, port: int)
    ensures Admits(BlockRules(cidrs), d, port) <==> exists p :: p in cidrs && InBlock(p, d)
  {
    if cidrs != [] {
      var n := |cidrs| - 1;
      var r := Rule([IpBlock(cidrs[n])], []);
      BlockRulesAdmit(cidrs[..n], d, port);
      AdmitsBoth(BlockRules(cidrs[..n]), [r], d, port);
      assert r.to[0] in r.to && [r][0] in [r];
      assert Admits([r], d, port) <==> InBlock(cidrs[n], d);
      assert cidrs == cidrs[..n] + [cidrs[n]];
    }
  }

  /** The blocks the builders emit hold what the policy names, and all of ::/32 if a mapped literal is among it. */
  lemma CidrUpstreamsHold(hosts: seq<Host>, d: Destination)
    requires forall h :: h in hosts ==> ValidHost(h)
    ensures (exists p :: p in CidrUpstreams(hosts) && InBlock(p, d)) <==>
      NamedByAddress(hosts, d) || SpilledByMapped(hosts, d)
  {
    if p :| p in CidrUpstreams(hosts) && InBlock(p, d) {
      var h :| h in hosts && AsCidr(h) == [p];
      BlockOfHost(h, d.address);
    }
    if h :| h in hosts && (Denotes(h, d.address) || (IsMappedLiteral(h) && InZeros(d.address))) {
      BlockOfHost(h, d.address);
      assert AsCidr(h) == [AsCidr(h)[0]];
      assert AsCidr(h)[0] in CidrUpstreams(hosts);
    }
  }

  lemma {:induction false} FqdnUpstreamsHold(hosts: seq<Host>, n: string)
    ensures n in FqdnUpstreams(hosts) <==> Host.Name(n) in hosts
  {
    if hosts != [] {
      FqdnUpstreamsHold(hosts[..|hosts| - 1], n);
      assert hosts == hosts[..|hosts| - 1] + [hosts[|hosts| - 1]];
    }
  }

  /** The names reported are those of the hosts, in the order of the hosts. */
  lemma {:induction false} FqdnUpstreamsInOrder(a: seq<Host>, b: seq<Host>, h: Host)
    ensures FqdnUpstreams(a + b) == FqdnUpstreams(a) + FqdnUpstreams(b)
    ensures FqdnUpstreams([h]) == if h.Name? then [h.text] else []
    decreases |b|
  {
    assert [h][..0] == [];
    if b == [] {
      assert a + b == a;
    } else {
      assert (a + b)[..|a + b| - 1] == a + b[..|b| - 1];
      FqdnUpstreamsInOrder(a, b[..|b| - 1], h);
    }
  }

  /**
  What the Vanilla backstop admits: the addresses the policy names, port 53 to the resolvers, and, past
  what was asked for, ::/32 for an IPv4-mapped literal.
  */
  lemma VanillaAdmitsWhatIsNamed(hosts: seq<Host>, config: DnsConfig, d: Destination, port: int)
    requires forall h :: h in hosts ==> ValidHost(h)
    ensures Admits(VanillaEgress(hosts, config), d, port) <==>
      NamedByAddress(hosts, d) || SpilledByMapped(hosts, d) || (port == 53 && IsResolver(config, d))
  {
    var dns, blocks := DnsRule(config), BlockRules(CidrUpstreams(hosts));
    AdmitsBoth([dns], blocks, d, port);
    assert [dns][0] in [dns];
    DnsRuleAdmits(config, d, port);
    BlockRulesAdmit(CidrUpstreams(hosts), d, port);
    CidrUpstreamsHold(hosts, d);
  }

  predicate NamedByName(hosts: seq<Host>, d: Destination) {
    exists n :: n in d.names && Host.Name(n) in hosts
  }

  /** What the Cilium one admits: the same addresses, the names too, and no query that leaves the cluster. */
  lemma CiliumAdmitsWhatIsNamed(hosts: seq<Host>, config: DnsConfig, d: Destination, port: int)
    requires forall h :: h in hosts ==> ValidHost(h)
    ensures CiliumAdmits(CiliumEgress(hosts, config), d, port) <==>
      && !(d.world && port == 53)
      && (|| NamedByAddress(hosts, d)
          || SpilledByMapped(hosts, d)
          || NamedByName(hosts, d)
          || (port == 53 && exists s :: s in [KUBE_DNS] + config.selectors && Selects(s, d)))
  {
    var dns, fqdns, cidrs := [KUBE_DNS] + config.selectors, FqdnUpstreams(hosts), CidrUpstreams(hosts);
    CiliumAdmitsOneOfThree(CiliumEgress(hosts, config), dns, fqdns, cidrs, d, port);
    CidrUpstreamsHold(hosts, d);
    forall n | n in d.names ensures n in fqdns <==> Host.Name(n) in hosts {
      FqdnUpstreamsHold(hosts, n);
    }
  }

  /** Outside port 53, nothing is admitted but what the policy names. */
  ghost predicate FailsClosed(hosts: seq<Host>, config: DnsConfig)
    requires forall h :: h in hosts ==> ValidHost(h)
  {
    forall d, port | port != DNS_PORT ::
      && (Admits(VanillaEgress(hosts, config), d, port) ==> NamedByAddress(hosts, d))
      && (CiliumAdmits(CiliumEgress(hosts, config), d, port) ==> NamedByAddress(hosts, d) || NamedByName(hosts, d))
  }

  /** No host is an IPv4-mapped literal, or the hosts name all of ::/32 anyway. */
  ghost predicate OpensOnlyWhatItNames(hosts: seq<Host>)
    requires forall h :: h in hosts ==> ValidHost(h)
  {
    || (forall h :: h in hosts ==> !IsMappedLiteral(h))
    || (forall a :: InZeros(a) ==> exists h :: h in hosts && Denotes(h, a))
  }

  lemma AdmitsOnlyWhatIsNamed(hosts: seq<Host>, config: DnsConfig, d: Destination, port: int)
    requires (forall h :: h in hosts ==> ValidHost(h)) && OpensOnlyWhatItNames(hosts) && port != DNS_PORT
    ensures Admits(VanillaEgress(hosts, config), d, port) ==> NamedByAddress(hosts, d)
    ensures CiliumAdmits(CiliumEgress(hosts, config), d, port) ==> NamedByAddress(hosts, d) || NamedByName(hosts, d)
  {
    VanillaAdmitsWhatIsNamed(hosts, config, d, port);
    CiliumAdmitsWhatIsNamed(hosts, config, d, port);
    assert SpilledByMapped(hosts, d) ==> NamedByAddress(hosts, d);
  }

  /** Both flavors fail closed exactly for the policies that do not name an IPv4-mapped literal. */
  lemma FailsClosedIff(hosts: seq<Host>, config: DnsConfig)
    requires forall h :: h in hosts ==> ValidHost(h)
    ensures FailsClosed(hosts, config) <==> OpensOnlyWhatItNames(hosts)
  {
    if OpensOnlyWhatItNames(hosts) {
      forall d, port | port != DNS_PORT
        ensures Admits(VanillaEgress(hosts, config), d, port) ==> NamedByAddress(hosts, d)
        ensures CiliumAdmits(CiliumEgress(hosts, config), d, port) ==> NamedByAddress(hosts, d) || NamedByName(hosts, d)
      {
        AdmitsOnlyWhatIsNamed(hosts, config, d, port);
      }
    } else {
      var a :| InZeros(a) && !exists h :: h in hosts && Denotes(h, a);
      var d := Destination(a, {}, None, true);
      VanillaAdmitsWhatIsNamed(hosts, config, d, 443);
      assert SpilledByMapped(hosts, d) && !NamedByAddress(hosts, d);
    }
  }

  /** The host ::ffff:1.2.3.4 becomes ::ffff:1.2.3.4/32, and that opens ::1 in both flavors. */
  lemma MappedLiteralOpensMore(config: DnsConfig)
    ensures var h := Ip(V6(0xffff_0102_0304)); var d := Destination(V6(1), {}, None, true);
      && ValidHost(h) && !NamedByAddress([h], d)
      && Admits(VanillaEgress([h], config), d, 443) && CiliumAdmits(CiliumEgress([h], config), d, 443)
  {
    var h, d := Ip(V6(0xffff_0102_0304)), Destination(V6(1), {}, None, true);
    DropAllBytes(1, 1, 88);
    assert [h][0] in [h] && IsMappedLiteral(h) && InZeros(d.address);
    VanillaAdmitsWhatIsNamed([h], config, d, 443);
    CiliumAdmitsWhatIsNamed([h], config, d, 443);
  }

  lemma CiliumAdmitsOneOfThree(p: CiliumPolicy, dns: seq<PodSelector>, fqdns: seq<string>, cidrs: seq<Prefix>,
                               d: Destination, port: int)
    requires p.egressDeny == [ToWorld([DNS_PORT, DNS_PORT])]
    requires p.egress == [ToEndpoints(dns)] + (if fqdns == [] then [] else [ToFqdns(fqdns)])
                      + (if cidrs == [] then [] else [ToCidrs(cidrs)])
    ensures CiliumAdmits(p, d, port) <==>
      && !(d.world && port == DNS_PORT)
      && (|| CiliumRuleAdmits(ToEndpoints(dns), d, port)
          || CiliumRuleAdmits(ToFqdns(fqdns), d, port)
          || CiliumRuleAdmits(ToCidrs(cidrs), d, port))
  {
    assert p.egressDeny[0] in p.egressDeny;
    assert forall r :: r in p.egress <==>
      r == ToEndpoints(dns) || (r == ToFqdns(fqdns) && fqdns != []) || (r == ToCidrs(cidrs) && cidrs != []);
  }

  /**
  Outside port 53 the flavors admit the same addresses, and differ by the names: Cilium also admits what
  resolves to a host the Vanilla flavor reports as unenforceable, and nothing beyond that.
  */
  lemma FlavorsAgree(hosts: seq<Host>, config: DnsConfig, d: Destination, port: int)
    requires forall h :: h in hosts ==> ValidHost(h)
    requires port != DNS_PORT
    ensures CiliumAdmits(CiliumEgress(hosts, config), d, port) <==>
      Admits(VanillaEgress(hosts, config), d, port) || exists n :: n in d.names && n in FqdnUpstreams(hosts)
  {
    VanillaAdmitsWhatIsNamed(hosts, config, d, port);
    CiliumAdmitsWhatIsNamed(hosts, config, d, port);
    forall n | n in d.names ensures n in FqdnUpstreams(hosts) <==> Host.Name(n) in hosts {
      FqdnUpstreamsHold(hosts, n);
    }
  }
}
