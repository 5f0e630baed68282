/**
 Network policies as security-group rules. The driver appends rules to a list,
 block by block; what the list admits is then compared with what the blocks mean.
 Ingress, with numeric ports.
 */
module NetworkPolicy {
  import opened Options

  type Addr = nat
  type Labels = map<string, string>

  datatype AddrRange = AddrRange(lo: Addr, hi: Addr)
  type Cidr = r: AddrRange | r.lo <= r.hi witness AddrRange(0, 0)

  predicate In(a: Addr, r: Cidr) { r.lo <= a <= r.hi }

  // `{}` selects everything; any other selector is the test the API server applies.
  datatype Selector = Everything | Where(test: Labels -> bool)

  predicate Selects(s: Selector, labels: Labels) { s.Everything? || s.test(labels) }

  datatype Pod = Pod(namespace: string, labels: Labels, ip: Option<Addr>)
  datatype Namespace = Namespace(name: string, labels: Labels, cidr: Cidr)
  datatype Cluster = Cluster(namespaces: seq<Namespace>, pods: seq<Pod>)

  datatype Protocol = TCP | UDP | SCTP
  datatype Direction = Ingress | Egress

  type PortNumber = n: nat | 1 <= n <= 65535 witness 80
  datatype PolicyPort = PolicyPort(port: PortNumber, protocol: Option<Protocol>)

  datatype Peer =
    | Selectors(namespaces: Option<Selector>, pods: Option<Selector>)
    | IpBlock(cidr: Cidr, except: seq<Cidr>)

  datatype Block = Block(from: Option<seq<Peer>>, ports: Option<seq<PolicyPort>>)

  datatype Policy = Policy(namespace: Namespace, types: seq<Direction>, ingress: seq<Block>)

  datatype Rule = Rule(protocol: Option<Protocol>, ports: Option<(nat, nat)>, prefix: Option<Cidr>, namespace: Option<string>)

  // What Neutron lets through.
  predicate RuleAdmits(r: Rule, src: Addr, proto: Protocol, port: nat) {
    && (r.protocol.Some? ==> r.protocol.value == proto)
    && (r.ports.Some? ==> r.ports.value.0 <= port <= r.ports.value.1)
    && (r.prefix.Some? ==> In(src, r.prefix.value))
  }

  predicate Admits(rules: seq<Rule>, src: Addr, proto: Protocol, port: nat) {
    exists i :: 0 <= i < |rules| && RuleAdmits(rules[i], src, proto, port)
  }

  // ---------- what a policy means ----------

  // A missing or empty selector of pods, next to a selector of namespaces.
  predicate AnyPod(s: Option<Selector>) { s.None? || s.value.Everything? }

  // Some pod with the address and the labels asked for, in the namespace if one is given.
  predicate SelectedPod(c: Cluster, s: Selector, namespace: Option<string>, src: Addr) {
    exists i :: 0 <= i < |c.pods| && c.pods[i].ip == Some(src)
      && (namespace.None? || c.pods[i].namespace == namespace.value) && (s.Everything? || s.test(c.pods[i].labels))
  }

  predicate NamespaceAllows(c: Cluster, ns: Namespace, pods: Option<Selector>, src: Addr) {
    if AnyPod(pods) then In(src, ns.cidr) else SelectedPod(c, pods.value, Some(ns.name), src)
  }

  predicate SomeNamespaceAllows(c: Cluster, s: Selector, pods: Option<Selector>, src: Addr) {
    exists i :: 0 <= i < |c.namespaces| && Selects(s, c.namespaces[i].labels) && NamespaceAllows(c, c.namespaces[i], pods, src)
  }

  predicate OutsideAll(src: Addr, except: seq<Cidr>) { forall i :: 0 <= i < |except| ==> !In(src, except[i]) }

  predicate OutsideSome(src: Addr, except: seq<Cidr>) { exists i :: 0 <= i < |except| && !In(src, except[i]) }

  // The sources a peer stands for. A selector of all namespaces without one
  // of pods stands for any source.
  predicate PeerAllows(p: Policy, c: Cluster, peer: Peer, src: Addr) {
    match peer
    case Selectors(Some(Everything), pods) => AnyPod(pods) || SelectedPod(c, pods.value, None, src)
    case Selectors(Some(ns), pods) =>
      SomeNamespaceAllows(c, ns, pods, src)
    case Selectors(None, Some(Everything)) => In(src, p.namespace.cidr)
    case Selectors(None, Some(pods)) => SelectedPod(c, pods, Some(p.namespace.name), src)
    case Selectors(None, None) => false
    case IpBlock(cidr, except) => In(src, cidr) && OutsideAll(src, except)
  }

  function Peers(b: Block): seq<Peer> { if b.from.Some? then b.from.value else [] }

  predicate AllTcp(proto: Protocol, port: nat) { proto == TCP && 1 <= port <= 65535 }

  // A block without ports stands for every TCP port, as in the code; Kubernetes
  // means every protocol.
  predicate PortAllowed(b: Block, proto: Protocol, port: nat) {
    if b.ports.None? || b.ports.value == [] then AllTcp(proto, port) else PortListed(b.ports.value, proto, port)
  }

  predicate PortListed(ports: seq<PolicyPort>, proto: Protocol, port: nat) {
    exists i :: 0 <= i < |ports| && ports[i].port == port && ProtocolOf(ports[i]) == proto
  }

  function ProtocolOf(p: PolicyPort): Protocol { if p.protocol.Some? then p.protocol.value else TCP }

  predicate BlockAllows(p: Policy, c: Cluster, b: Block, src: Addr, proto: Protocol, port: nat) {
    && PortAllowed(b, proto, port)
    && (Peers(b) == [] || exists i :: 0 <= i < |Peers(b)| && PeerAllows(p, c, Peers(b)[i], src))
  }

  predicate PolicyAllows(p: Policy, c: Cluster, src: Addr, proto: Protocol, port: nat) {
    Ingress in p.types ==> exists i :: 0 <= i < |p.ingress| && BlockAllows(p, c, p.ingress[i], src, proto, port)
  }

  // ---------- the rules, as functions ----------

  datatype Resource = PodResource(pod: Pod) | NamespaceResource(ns: Namespace) | CidrResource(range: Cidr)

  function Details(r: Resource): (Option<Cidr>, Option<string>) {
    match r
    case PodResource(pod) => (if pod.ip.Some? then Some(AddrRange(pod.ip.value, pod.ip.value)) else None, Some(pod.namespace))
    case NamespaceResource(ns) => (Some(ns.cidr), Some(ns.name))
    case CidrResource(range) => (Some(range), None)
  }

  predicate ResourceHas(r: Resource, src: Addr) {
    var cidr := Details(r).0;
    cidr.Some? && In(src, cidr.value)
  }

  predicate AnyHas(rs: seq<Resource>, src: Addr) {
    exists i :: 0 <= i < |rs| && ResourceHas(rs[i], src)
  }

  // What the API server lists: the pods of one namespace or of all, by labels.
  predicate PodMatches(pod: Pod, s: Selector, namespace: Option<string>) {
    Selects(s, pod.labels) && (namespace.Some? ==> pod.namespace == namespace.value)
  }

  function PodsFrom(pods: seq<Pod>, s: Selector, namespace: Option<string>): seq<Resource> {
    if pods == [] then []
    else (if PodMatches(pods[0], s, namespace) then [PodResource(pods[0])] else []) + PodsFrom(pods[1..], s, namespace)
  }

  function NamespacesFrom(nss: seq<Namespace>, s: Selector): seq<Namespace> {
    if nss == [] then []
    else (if Selects(s, nss[0].labels) then [nss[0]] else []) + NamespacesFrom(nss[1..], s)
  }

  function NamespaceResources(nss: seq<Namespace>): seq<Resource> { seq(|nss|, i requires 0 <= i < |nss| => NamespaceResource(nss[i])) }

  // The pods a peer selects: with a selector of namespaces, each one's pods
  // replace those of the one before.
  function SelectedPods(c: Cluster, s: Selector, namespaces: Selector): seq<Resource> {
    var nss := NamespacesFrom(c.namespaces, namespaces);
    if nss == [] then [] else PodsFrom(c.pods, s, Some(nss[|nss| - 1].name))
  }

  function SelectorResources(p: Policy, c: Cluster, peer: Peer): seq<Resource> {
    match peer
    case Selectors(Some(Everything), pods) => if AnyPod(pods) then [] else PodsFrom(c.pods, pods.value, None)
    case Selectors(Some(ns), pods) =>
      if AnyPod(pods) then NamespaceResources(NamespacesFrom(c.namespaces, ns)) else SelectedPods(c, pods.value, ns)
    case Selectors(None, Some(Everything)) => [NamespaceResource(p.namespace)]
    case Selectors(None, Some(pods)) => PodsFrom(c.pods, pods, Some(p.namespace.name))
    case _ => []
  }

  predicate AllowsAll(peer: Peer) { peer.Selectors? && peer.namespaces == Some(Everything) && AnyPod(peer.pods) }

  predicate IsSelector(peer: Peer) { peer.Selectors? && (peer.namespaces.Some? || peer.pods.Some?) }

  // The addresses of `target` outside `exclude`.
  function Exclude(target: Cidr, exclude: Cidr): seq<Cidr> {
    if exclude.hi < target.lo || target.hi < exclude.lo then
      [target]
    else
      (if target.lo < exclude.lo then [AddrRange(target.lo, exclude.lo - 1)] else [])
      + (if exclude.hi < target.hi then [AddrRange(exclude.hi + 1, target.hi)] else [])
  }

  function CidrResources(cidrs: seq<Cidr>): seq<Resource> { seq(|cidrs|, i requires 0 <= i < |cidrs| => CidrResource(cidrs[i])) }

  function ExceptResources(cidr: Cidr, except: seq<Cidr>): seq<Resource> {
    if except == [] then []
    else ExceptResources(cidr, except[..|except| - 1]) + CidrResources(Exclude(cidr, except[|except| - 1]))
  }

  function BlockedResources(peer: Peer): seq<Resource> {
    if !peer.IpBlock? then []
    else if peer.except == [] then [CidrResource(peer.cidr)] else ExceptResources(peer.cidr, peer.except)
  }

  function AllSelected(p: Policy, c: Cluster, peers: seq<Peer>): seq<Resource> {
    if peers == [] then []
    else AllSelected(p, c, peers[..|peers| - 1]) + SelectorResources(p, c, peers[|peers| - 1])
  }

  function AllBlocked(peers: seq<Peer>): seq<Resource> {
    if peers == [] then [] else AllBlocked(peers[..|peers| - 1]) + BlockedResources(peers[|peers| - 1])
  }

  function Resources(p: Policy, c: Cluster, peers: seq<Peer>): seq<Resource> { AllSelected(p, c, peers) + AllBlocked(peers) }

  predicate AllowAll(peers: seq<Peer>) { exists i :: 0 <= i < |peers| && AllowsAll(peers[i]) }

  predicate HasSelectors(peers: seq<Peer>) { exists i :: 0 <= i < |peers| && IsSelector(peers[i]) }

  // The block names sources the driver recognises.
  predicate Restricted(p: Policy, c: Cluster, b: Block) {
    Resources(p, c, Peers(b)) != [] || AllowAll(Peers(b)) || HasSelectors(Peers(b))
  }

  function RuleBody(port: Option<PortNumber>, protocol: Option<Protocol>, prefix: Option<Cidr>, namespace: Option<string>): Rule {
    Rule(Some(if protocol.Some? then protocol.value else TCP),
         Some(if port.Some? then (port.value, port.value) else (1, 65535)), prefix, namespace)
  }

  // One rule for each resource that has an address.
  function ResourceRules(rs: seq<Resource>, port: Option<PortNumber>, protocol: Option<Protocol>): seq<Rule> {
    if rs == [] then []
    else
      var (cidr, namespace) := Details(rs[|rs| - 1]);
      ResourceRules(rs[..|rs| - 1], port, protocol) + if cidr.Some? then [RuleBody(port, protocol, cidr, namespace)] else []
  }

  function PortRules(p: Policy, c: Cluster, b: Block, port: PolicyPort): seq<Rule> {
    (if Restricted(p, c, b) then ResourceRules(Resources(p, c, Peers(b)), Some(port.port), port.protocol) else [])
    + (if AllowAll(Peers(b)) || !Restricted(p, c, b) then [RuleBody(Some(port.port), port.protocol, None, None)] else [])
  }

  function AllPortRules(p: Policy, c: Cluster, b: Block, ports: seq<PolicyPort>): seq<Rule> {
    if ports == [] then [] else AllPortRules(p, c, b, ports[..|ports| - 1]) + PortRules(p, c, b, ports[|ports| - 1])
  }

  function BlockRules(p: Policy, c: Cluster, b: Block): seq<Rule> {
    if b.ports.Some? then AllPortRules(p, c, b, b.ports.value)
    else if Restricted(p, c, b) then
      ResourceRules(Resources(p, c, Peers(b)), None, None) + if AllowAll(Peers(b)) then [RuleBody(None, None, None, None)] else []
    else []
  }

  function AllBlockRules(p: Policy, c: Cluster, bs: seq<Block>): seq<Rule> {
    if bs == [] then [] else AllBlockRules(p, c, bs[..|bs| - 1]) + BlockRules(p, c, bs[|bs| - 1])
  }

  predicate Empty(b: Block) { b.from.None? && b.ports.None? }

  function Compile(p: Policy, c: Cluster): seq<Rule> {
    if p.ingress == [] then if p.types == [Egress] then [Rule(None, None, None, None)] else []
    else (if Empty(p.ingress[0]) then [RuleBody(None, None, None, None)] else []) + AllBlockRules(p, c, p.ingress)
  }

  // ---------- what the rules admit ----------

  lemma AdmitsConcat(a: seq<Rule>, b: seq<Rule>, src: Addr, proto: Protocol, port: nat)
    ensures Admits(a + b, src, proto, port) <==> Admits(a, src, proto, port) || Admits(b, src, proto, port)
  {
    if i :| 0 <= i < |a| && RuleAdmits(a[i], src, proto, port) { assert (a + b)[i] == a[i]; }
    if i :| 0 <= i < |b| && RuleAdmits(b[i], src, proto, port) { assert (a + b)[|a| + i] == b[i]; }
    if i :| 0 <= i < |a + b| && RuleAdmits((a + b)[i], src, proto, port) {
      assert (a + b)[i] == if i < |a| then a[i] else b[i - |a|];
    }
  }

  lemma AdmitsOne(r: Rule, src: Addr, proto: Protocol, port: nat)
    ensures Admits([r], src, proto, port) <==> RuleAdmits(r, src, proto, port)
  {
    assert [r][0] == r;
  }

  lemma HasConcat(a: seq<Resource>, b: seq<Resource>, src: Addr)
    ensures AnyHas(a + b, src) <==> AnyHas(a, src) || AnyHas(b, src)
  {
    if i :| 0 <= i < |a| && ResourceHas(a[i], src) { assert (a + b)[i] == a[i]; }
    if i :| 0 <= i < |b| && ResourceHas(b[i], src) { assert (a + b)[|a| + i] == b[i]; }
    if i :| 0 <= i < |a + b| && ResourceHas((a + b)[i], src) {
      assert (a + b)[i] == if i < |a| then a[i] else b[i - |a|];
    }
  }

  predicate RangeHas(port: Option<PortNumber>, at: nat) { if port.Some? then at == port.value else 1 <= at <= 65535 }

  // The rules of a list of resources admit the addresses of those resources.
  lemma {:induction false} ResourceRulesAdmit(rs: seq<Resource>, port: Option<PortNumber>, protocol: Option<Protocol>,
                                              src: Addr, proto: Protocol, at: nat)
    ensures Admits(ResourceRules(rs, port, protocol), src, proto, at)
       <==> AnyHas(rs, src) && RangeHas(port, at) && proto == if protocol.Some? then protocol.value else TCP
  {
    if rs != [] {
      var init, last := rs[..|rs| - 1], rs[|rs| - 1];
      assert rs == init + [last] && [last][0] == last;
      ResourceRulesAdmit(init, port, protocol, src, proto, at);
      HasConcat(init, [last], src);
      var (cidr, namespace) := Details(last);
      var rules := if cidr.Some? then [RuleBody(port, protocol, cidr, namespace)] else [];
      AdmitsConcat(ResourceRules(init, port, protocol), rules, src, proto, at);
      if cidr.Some? { AdmitsOne(rules[0], src, proto, at); }
    }
  }

  lemma {:induction false} PodsFromHave(pods: seq<Pod>, s: Selector, namespace: Option<string>, src: Addr)
    ensures AnyHas(PodsFrom(pods, s, namespace), src)
       <==> exists i :: 0 <= i < |pods| && PodMatches(pods[i], s, namespace) && pods[i].ip == Some(src)
  {
    if pods != [] {
      var first := if PodMatches(pods[0], s, namespace) then [PodResource(pods[0])] else [];
      PodsFromHave(pods[1..], s, namespace, src);
      HasConcat(first, PodsFrom(pods[1..], s, namespace), src);
      if first != [] { assert AnyHas(first, src) <==> ResourceHas(first[0], src); }
      if i :| 0 <= i < |pods| - 1 && PodMatches(pods[1..][i], s, namespace) && pods[1..][i].ip == Some(src) {
        assert pods[i + 1] == pods[1..][i];
      }
      if i :| 0 < i < |pods| && PodMatches(pods[i], s, namespace) && pods[i].ip == Some(src) {
        assert pods[1..][i - 1] == pods[i];
      }
    }
  }

  lemma {:induction false} NamespacesFromAre(nss: seq<Namespace>, s: Selector, ns: Namespace)
    ensures ns in NamespacesFrom(nss, s) <==> ns in nss && Selects(s, ns.labels)
  {
    if nss != [] {
      assert nss == [nss[0]] + nss[1..];
      NamespacesFromAre(nss[1..], s, ns);
    }
  }

  lemma NamespacesHave(nss: seq<Namespace>, src: Addr)
    ensures AnyHas(NamespaceResources(nss), src) <==> exists ns :: ns in nss && In(src, ns.cidr)
  {
    var rs := NamespaceResources(nss);
    if i :| 0 <= i < |rs| && ResourceHas(rs[i], src) { assert nss[i] in nss; }
    if ns :| ns in nss && In(src, ns.cidr) {
      var i :| 0 <= i < |nss| && nss[i] == ns;
      assert ResourceHas(rs[i], src);
    }
  }

  lemma ExcludeHas(target: Cidr, exclude: Cidr, src: Addr)
    ensures AnyHas(CidrResources(Exclude(target, exclude)), src) <==> In(src, target) && !In(src, exclude)
  {
    var rs := CidrResources(Exclude(target, exclude));
    if In(src, target) && !In(src, exclude) {
      assert if |rs| == 1 || src < exclude.lo then ResourceHas(rs[0], src) else ResourceHas(rs[1], src);
    }
  }

  // Several exceptions: each one's complement is admitted.
  lemma {:induction false} ExceptsHave(cidr: Cidr, except: seq<Cidr>, src: Addr)
    ensures AnyHas(ExceptResources(cidr, except), src)
       <==> In(src, cidr) && OutsideSome(src, except)
  {
    if except != [] {
      var init, last := except[..|except| - 1], except[|except| - 1];
      ExceptsHave(cidr, init, src);
      ExcludeHas(cidr, last, src);
      HasConcat(ExceptResources(cidr, init), CidrResources(Exclude(cidr, last)), src);
      if i :| 0 <= i < |init| && !In(src, init[i]) { assert except[i] == init[i]; }
      if i :| 0 <= i < |except| && !In(src, except[i]) { assert i < |init| ==> init[i] == except[i]; }
    }
  }

  // The sources the rules admit for a peer.
  predicate PeerAdmits(p: Policy, c: Cluster, peer: Peer, src: Addr) {
    match peer
    case Selectors(Some(Where(t)), Some(Where(u))) =>
      var nss := NamespacesFrom(c.namespaces, Where(t));
      nss != [] && SelectedPod(c, Where(u), Some(nss[|nss| - 1].name), src)
    case IpBlock(cidr, except) => In(src, cidr) && (except == [] || OutsideSome(src, except))
    case _ => PeerAllows(p, c, peer, src)
  }

  lemma NamespacePeerHas(p: Policy, c: Cluster, s: Selector, pods: Option<Selector>, src: Addr)
    requires s.Where? && AnyPod(pods)
    ensures AnyHas(NamespaceResources(NamespacesFrom(c.namespaces, s)), src)
       <==> PeerAllows(p, c, Selectors(Some(s), pods), src)
  {
    var nss := NamespacesFrom(c.namespaces, s);
    NamespacesHave(nss, src);
    forall ns ensures ns in nss <==> ns in c.namespaces && Selects(s, ns.labels) { NamespacesFromAre(c.namespaces, s, ns); }
    if SomeNamespaceAllows(c, s, pods, src) {
      var i :| 0 <= i < |c.namespaces| && Selects(s, c.namespaces[i].labels) && NamespaceAllows(c, c.namespaces[i], pods, src);
      assert c.namespaces[i] in nss;
    }
    if ns :| ns in nss && In(src, ns.cidr) {
      var i :| 0 <= i < |c.namespaces| && c.namespaces[i] == ns;
      assert NamespaceAllows(c, c.namespaces[i], pods, src);
    }
  }

  lemma PodsSelected(c: Cluster, s: Selector, namespace: Option<string>, src: Addr)
    ensures AnyHas(PodsFrom(c.pods, s, namespace), src) <==> SelectedPod(c, s, namespace, src)
  {
    PodsFromHave(c.pods, s, namespace, src);
  }

  lemma PeerHas(p: Policy, c: Cluster, peer: Peer, src: Addr)
    ensures AnyHas(SelectorResources(p, c, peer) + BlockedResources(peer), src) || AllowsAll(peer) <==> PeerAdmits(p, c, peer, src)
  {
    hide SelectedPod, PodsFrom, OutsideSome, OutsideAll;
    HasConcat(SelectorResources(p, c, peer), BlockedResources(peer), src);
    match peer
    case Selectors(Some(Everything), pods) => if !AnyPod(pods) { PodsSelected(c, pods.value, None, src); }
    case Selectors(Some(ns), pods) =>
      if AnyPod(pods) {
        NamespacePeerHas(p, c, ns, pods, src);
      } else {
        var nss := NamespacesFrom(c.namespaces, ns);
        if nss != [] { PodsSelected(c, pods.value, Some(nss[|nss| - 1].name), src); }
      }
    case Selectors(None, Some(Everything)) => assert AnyHas([NamespaceResource(p.namespace)], src) <==> ResourceHas(NamespaceResource(p.namespace), src) by {
        assert [NamespaceResource(p.namespace)][0] == NamespaceResource(p.namespace);
      }
    case Selectors(None, Some(pods)) => PodsSelected(c, pods, Some(p.namespace.name), src);
    case Selectors(None, None) =>
    case IpBlock(cidr, except) =>
      if except == [] {
        assert BlockedResources(peer)[0] == CidrResource(cidr);
      } else {
        ExceptsHave(cidr, except, src);
      }
  }

  predicate SomePeerAdmits(p: Policy, c: Cluster, peers: seq<Peer>, src: Addr) {
    exists i :: 0 <= i < |peers| && PeerAdmits(p, c, peers[i], src)
  }

  lemma {:induction false} PeersHave(p: Policy, c: Cluster, peers: seq<Peer>, src: Addr)
    ensures AnyHas(Resources(p, c, peers), src) || AllowAll(peers) <==> SomePeerAdmits(p, c, peers, src)
  {
    if peers != [] {
      var init, last := peers[..|peers| - 1], peers[|peers| - 1];
      hide PeerAdmits, SelectorResources, BlockedResources, AllowsAll;
      PeersHave(p, c, init, src);
      PeerHas(p, c, last, src);
      HasConcat(AllSelected(p, c, peers), AllBlocked(peers), src);
      HasConcat(AllSelected(p, c, init), AllBlocked(init), src);
      HasConcat(AllSelected(p, c, init), SelectorResources(p, c, last), src);
      HasConcat(AllBlocked(init), BlockedResources(last), src);
      HasConcat(SelectorResources(p, c, last), BlockedResources(last), src);
      LastPeer(p, c, peers, src);
    }
  }

  lemma LastPeer(p: Policy, c: Cluster, peers: seq<Peer>, src: Addr)
    requires peers != []
    ensures var init, last := peers[..|peers| - 1], peers[|peers| - 1];
            && (AllowAll(peers) <==> AllowAll(init) || AllowsAll(last))
            && (SomePeerAdmits(p, c, peers, src) <==> SomePeerAdmits(p, c, init, src) || PeerAdmits(p, c, last, src))
  {
    hide PeerAdmits, AllowsAll;
    var init := peers[..|peers| - 1];
    if i :| 0 <= i < |init| && AllowsAll(init[i]) { assert peers[i] == init[i]; }
    if i :| 0 <= i < |init| && PeerAdmits(p, c, init[i], src) { assert peers[i] == init[i]; }
    if i :| 0 <= i < |peers| && AllowsAll(peers[i]) { assert i < |init| ==> init[i] == peers[i]; }
    if i :| 0 <= i < |peers| && PeerAdmits(p, c, peers[i], src) { assert i < |init| ==> init[i] == peers[i]; }
  }

  // A block's rules, in terms of its peers and ports.
  predicate BlockAdmits(p: Policy, c: Cluster, b: Block, src: Addr, proto: Protocol, port: nat) {
    && (if b.ports.Some? then PortListed(b.ports.value, proto, port) else AllTcp(proto, port))
    && (if Restricted(p, c, b) then SomePeerAdmits(p, c, Peers(b), src) else b.ports.Some?)
  }

  lemma PortRulesAdmit(p: Policy, c: Cluster, b: Block, port: PolicyPort, src: Addr, proto: Protocol, at: nat)
    ensures Admits(PortRules(p, c, b, port), src, proto, at)
       <==> at == port.port && proto == ProtocolOf(port) && (Restricted(p, c, b) ==> SomePeerAdmits(p, c, Peers(b), src))
  {
    hide Restricted, SomePeerAdmits, AllowAll, Resources, AnyHas, ResourceRules;
    var rs := Resources(p, c, Peers(b));
    var any := RuleBody(Some(port.port), port.protocol, None, None);
    PeersHave(p, c, Peers(b), src);
    ResourceRulesAdmit(rs, Some(port.port), port.protocol, src, proto, at);
    AdmitsOne(any, src, proto, at);
    AdmitsConcat(ResourceRules(rs, Some(port.port), port.protocol), [any], src, proto, at);
    AdmitsConcat(ResourceRules(rs, Some(port.port), port.protocol), [], src, proto, at);
    assert [] + [any] == [any];
  }

  lemma {:induction false} AllPortRulesAdmit(p: Policy, c: Cluster, b: Block, ports: seq<PolicyPort>, src: Addr, proto: Protocol, at: nat)
    ensures Admits(AllPortRules(p, c, b, ports), src, proto, at)
       <==> PortListed(ports, proto, at) && (Restricted(p, c, b) ==> SomePeerAdmits(p, c, Peers(b), src))
  {
    if ports != [] {
      hide Restricted, SomePeerAdmits, PortRules;
      var init, last := ports[..|ports| - 1], ports[|ports| - 1];
      AllPortRulesAdmit(p, c, b, init, src, proto, at);
      PortRulesAdmit(p, c, b, last, src, proto, at);
      AdmitsConcat(AllPortRules(p, c, b, init), PortRules(p, c, b, last), src, proto, at);
      if i :| 0 <= i < |init| && init[i].port == at && ProtocolOf(init[i]) == proto { assert ports[i] == init[i]; }
      if i :| 0 <= i < |ports| && ports[i].port == at && ProtocolOf(ports[i]) == proto { assert i < |init| ==> init[i] == ports[i]; }
    }
  }

  lemma BlockRulesAdmit(p: Policy, c: Cluster, b: Block, src: Addr, proto: Protocol, port: nat)
    ensures Admits(BlockRules(p, c, b), src, proto, port) <==> BlockAdmits(p, c, b, src, proto, port)
  {
    hide Restricted, SomePeerAdmits, AllowAll, Resources, AnyHas, ResourceRules;
    if b.ports.Some? {
      AllPortRulesAdmit(p, c, b, b.ports.value, src, proto, port);
    } else {
      var rs := Resources(p, c, Peers(b));
      var any := RuleBody(None, None, None, None);
      PeersHave(p, c, Peers(b), src);
      ResourceRulesAdmit(rs, None, None, src, proto, port);
      AdmitsOne(any, src, proto, port);
      AdmitsConcat(ResourceRules(rs, None, None), [any], src, proto, port);
      AdmitsConcat(ResourceRules(rs, None, None), [], src, proto, port);
    }
  }

  predicate SomeBlockAdmits(p: Policy, c: Cluster, bs: seq<Block>, src: Addr, proto: Protocol, port: nat) {
    exists i :: 0 <= i < |bs| && BlockAdmits(p, c, bs[i], src, proto, port)
  }

  lemma LastBlock(p: Policy, c: Cluster, bs: seq<Block>, src: Addr, proto: Protocol, port: nat)
    requires bs != []
    ensures var init, last := bs[..|bs| - 1], bs[|bs| - 1];
            SomeBlockAdmits(p, c, bs, src, proto, port)
            <==> SomeBlockAdmits(p, c, init, src, proto, port) || BlockAdmits(p, c, last, src, proto, port)
  {
    hide BlockAdmits;
    var init := bs[..|bs| - 1];
    if i :| 0 <= i < |init| && BlockAdmits(p, c, init[i], src, proto, port) { assert bs[i] == init[i]; }
    if i :| 0 <= i < |bs| && BlockAdmits(p, c, bs[i], src, proto, port) { assert i < |init| ==> init[i] == bs[i]; }
  }

  lemma {:induction false} AllBlockRulesAdmit(p: Policy, c: Cluster, bs: seq<Block>, src: Addr, proto: Protocol, port: nat)
    ensures Admits(AllBlockRules(p, c, bs), src, proto, port) <==> SomeBlockAdmits(p, c, bs, src, proto, port)
  {
    if bs != [] {
      hide BlockAdmits, BlockRules, Admits;
      var init, last := bs[..|bs| - 1], bs[|bs| - 1];
      AllBlockRulesAdmit(p, c, init, src, proto, port);
      BlockRulesAdmit(p, c, last, src, proto, port);
      AdmitsConcat(AllBlockRules(p, c, init), BlockRules(p, c, last), src, proto, port);
      LastBlock(p, c, bs, src, proto, port);
    } else {
      assert AllBlockRules(p, c, bs) == [];
    }
  }

  // What the policy's own rules admit, for every policy and cluster; to these
  // the security group adds its default rules.
  predicate Admitted(p: Policy, c: Cluster, src: Addr, proto: Protocol, port: nat) {
    if p.ingress == [] then
      p.types == [Egress]
    else
      (Empty(p.ingress[0]) && AllTcp(proto, port)) || SomeBlockAdmits(p, c, p.ingress, src, proto, port)
  }

  lemma CompileAdmits(p: Policy, c: Cluster, src: Addr, proto: Protocol, port: nat)
    ensures Admits(Compile(p, c), src, proto, port) <==> Admitted(p, c, src, proto, port)
  {
    hide SomeBlockAdmits, AllBlockRules;
    if p.ingress == [] {
      AdmitsOne(Rule(None, None, None, None), src, proto, port);
    } else {
      var open := RuleBody(None, None, None, None);
      AllBlockRulesAdmit(p, c, p.ingress, src, proto, port);
      AdmitsOne(open, src, proto, port);
      AdmitsConcat([open], AllBlockRules(p, c, p.ingress), src, proto, port);
      AdmitsConcat([], AllBlockRules(p, c, p.ingress), src, proto, port);
    }
  }

  // ---------- when the rules mean the policy ----------

  // The part of an exception that falls in the block.
  function Clip(cidr: Cidr, e: Cidr): Option<Cidr> {
    if e.hi < cidr.lo || cidr.hi < e.lo then None
    else Some(AddrRange(if e.lo < cidr.lo then cidr.lo else e.lo, if e.hi > cidr.hi then cidr.hi else e.hi))
  }

  predicate ExceptsAgree(cidr: Cidr, except: seq<Cidr>) {
    forall i, j :: 0 <= i < |except| && 0 <= j < |except| ==> Clip(cidr, except[i]) == Clip(cidr, except[j])
  }

  // Every pod selected in some selected namespace shares its address with a
  // pod selected in the last one.
  predicate NoneStranded(c: Cluster, namespaces: Selector, pods: Selector) {
    var nss := NamespacesFrom(c.namespaces, namespaces);
    forall i, n :: 0 <= i < |c.pods| && 0 <= n < |nss| && c.pods[i].ip.Some?
                   && c.pods[i].namespace == nss[n].name && Selects(pods, c.pods[i].labels) ==>
      SelectedPod(c, pods, Some(nss[|nss| - 1].name), c.pods[i].ip.value)
  }

  predicate PeerExact(c: Cluster, peer: Peer) {
    match peer
    case Selectors(Some(Where(t)), Some(Where(u))) => NoneStranded(c, Where(t), Where(u))
    case IpBlock(cidr, except) => ExceptsAgree(cidr, except)
    case _ => true
  }

  // An exception the others disagree with gives an address that is let in though excepted.
  lemma DisagreementShows(cidr: Cidr, except: seq<Cidr>, i: nat, j: nat) returns (src: Addr)
    requires i < |except| && j < |except| && Clip(cidr, except[i]) != Clip(cidr, except[j])
    ensures In(src, cidr) && !OutsideAll(src, except) && OutsideSome(src, except)
  {
    var a, b := Clip(cidr, except[i]), Clip(cidr, except[j]);
    if a.None? {
      src := b.value.lo;
    } else if b.None? {
      src := a.value.lo;
    } else if a.value.lo != b.value.lo {
      src := if a.value.lo < b.value.lo then a.value.lo else b.value.lo;
    } else {
      src := if a.value.hi > b.value.hi then a.value.hi else b.value.hi;
    }
    assert In(src, except[i]) || In(src, except[j]);
    assert !In(src, except[i]) || !In(src, except[j]);
  }

  lemma IpBlockExactIff(p: Policy, c: Cluster, cidr: Cidr, except: seq<Cidr>)
    ensures (forall src: Addr :: PeerAdmits(p, c, IpBlock(cidr, except), src) <==> PeerAllows(p, c, IpBlock(cidr, except), src))
       <==> ExceptsAgree(cidr, except)
  {
    var peer := IpBlock(cidr, except);
    if ExceptsAgree(cidr, except) {
      forall src: Addr ensures PeerAdmits(p, c, peer, src) <==> PeerAllows(p, c, peer, src) {
        if In(src, cidr) && OutsideSome(src, except) {
          var i :| 0 <= i < |except| && !In(src, except[i]);
          forall j | 0 <= j < |except| ensures !In(src, except[j]) { assert Clip(cidr, except[i]) == Clip(cidr, except[j]); }
        }
        if OutsideAll(src, except) && except != [] { assert !In(src, except[0]); }
      }
    } else {
      var i, j :| 0 <= i < |except| && 0 <= j < |except| && Clip(cidr, except[i]) != Clip(cidr, except[j]);
      var src := DisagreementShows(cidr, except, i, j);
      assert PeerAdmits(p, c, peer, src) && !PeerAllows(p, c, peer, src);
    }
  }

  predicate SelectedPodIn(c: Cluster, nss: seq<Namespace>, pods: Selector, src: Addr) {
    exists n :: 0 <= n < |nss| && SelectedPod(c, pods, Some(nss[n].name), src)
  }

  lemma InSelectedNamespaces(c: Cluster, s: Selector, pods: Selector, src: Addr)
    requires pods.Where?
    ensures SomeNamespaceAllows(c, s, Some(pods), src) <==> SelectedPodIn(c, NamespacesFrom(c.namespaces, s), pods, src)
  {
    hide SelectedPod, NamespacesFrom;
    var nss := NamespacesFrom(c.namespaces, s);
    forall ns ensures ns in nss <==> ns in c.namespaces && Selects(s, ns.labels) { NamespacesFromAre(c.namespaces, s, ns); }
    if SomeNamespaceAllows(c, s, Some(pods), src) {
      var i :| 0 <= i < |c.namespaces| && Selects(s, c.namespaces[i].labels) && NamespaceAllows(c, c.namespaces[i], Some(pods), src);
      assert c.namespaces[i] in nss;
      var n :| 0 <= n < |nss| && nss[n] == c.namespaces[i];
      assert SelectedPod(c, pods, Some(nss[n].name), src);
    }
    if SelectedPodIn(c, nss, pods, src) {
      var n :| 0 <= n < |nss| && SelectedPod(c, pods, Some(nss[n].name), src);
      assert nss[n] in nss;
      var i :| 0 <= i < |c.namespaces| && c.namespaces[i] == nss[n];
      assert NamespaceAllows(c, c.namespaces[i], Some(pods), src);
    }
  }

  lemma NamespacePodsExactIff(p: Policy, c: Cluster, s: Selector, pods: Selector)
    requires s.Where? && pods.Where?
    ensures (forall src: Addr :: PeerAdmits(p, c, Selectors(Some(s), Some(pods)), src) <==> PeerAllows(p, c, Selectors(Some(s), Some(pods)), src))
       <==> NoneStranded(c, s, pods)
  {
    var peer := Selectors(Some(s), Some(pods));
    var nss := NamespacesFrom(c.namespaces, s);
    forall src: Addr ensures PeerAllows(p, c, peer, src) <==> SelectedPodIn(c, nss, pods, src) {
      InSelectedNamespaces(c, s, pods, src);
    }
    if NoneStranded(c, s, pods) {
      forall src: Addr ensures PeerAdmits(p, c, peer, src) <==> SelectedPodIn(c, nss, pods, src) {
        if SelectedPodIn(c, nss, pods, src) {
          var n :| 0 <= n < |nss| && SelectedPod(c, pods, Some(nss[n].name), src);
          var i :| 0 <= i < |c.pods| && c.pods[i].ip == Some(src) && c.pods[i].namespace == nss[n].name && Selects(pods, c.pods[i].labels);
        }
      }
    } else {
      var i, n :| 0 <= i < |c.pods| && 0 <= n < |nss| && c.pods[i].ip.Some? && c.pods[i].namespace == nss[n].name
                  && Selects(pods, c.pods[i].labels) && !SelectedPod(c, pods, Some(nss[|nss| - 1].name), c.pods[i].ip.value);
      var src := c.pods[i].ip.value;
      assert SelectedPod(c, pods, Some(nss[n].name), src);
      assert !PeerAdmits(p, c, peer, src);
    }
  }

  // The rules for a peer admit its sources if and only if the guard holds.
  lemma PeerExactIff(p: Policy, c: Cluster, peer: Peer)
    ensures (forall src: Addr :: PeerAdmits(p, c, peer, src) <==> PeerAllows(p, c, peer, src)) <==> PeerExact(c, peer)
  {
    match peer
    case Selectors(Some(Where(t)), Some(Where(u))) => NamespacePodsExactIff(p, c, Where(t), Where(u));
    case IpBlock(cidr, except) => IpBlockExactIff(p, c, cidr, except);
    case _ =>
  }

  // A block without peers and ports must be `{}`, and the first block with it;
  // a block with peers and ports must name some source the driver recognises.
  predicate BlockExact(p: Policy, c: Cluster, b: Block)
    requires p.ingress != []
  {
    && b.ports != Some([])
    && (Peers(b) == [] && b.ports.None? ==> Empty(b) && Empty(p.ingress[0]))
    && (Peers(b) != [] && b.ports.Some? ==> Restricted(p, c, b))
    && forall i :: 0 <= i < |Peers(b)| ==> PeerExact(c, Peers(b)[i])
  }

  predicate PolicyExact(p: Policy, c: Cluster) {
    if Ingress in p.types then
      forall i :: 0 <= i < |p.ingress| ==> BlockExact(p, c, p.ingress[i])
    else
      p.ingress == [] && p.types == [Egress]
  }

  lemma SomePeerExact(p: Policy, c: Cluster, peers: seq<Peer>, src: Addr)
    requires forall i :: 0 <= i < |peers| ==> PeerExact(c, peers[i])
    ensures SomePeerAdmits(p, c, peers, src) <==> exists i :: 0 <= i < |peers| && PeerAllows(p, c, peers[i], src)
  {
    hide PeerExact, PeerAdmits, PeerAllows;
    forall i | 0 <= i < |peers| ensures PeerAdmits(p, c, peers[i], src) <==> PeerAllows(p, c, peers[i], src) {
      PeerExactIff(p, c, peers[i]);
    }
    if i :| 0 <= i < |peers| && PeerAdmits(p, c, peers[i], src) { assert PeerAllows(p, c, peers[i], src); }
    if i :| 0 <= i < |peers| && PeerAllows(p, c, peers[i], src) { assert PeerAdmits(p, c, peers[i], src); }
  }

  lemma ExactBlockAdmits(p: Policy, c: Cluster, b: Block, src: Addr, proto: Protocol, port: nat)
    requires p.ingress != [] && BlockExact(p, c, b)
    ensures Peers(b) == [] && b.ports.None? ==> !BlockAdmits(p, c, b, src, proto, port) && (BlockAllows(p, c, b, src, proto, port) <==> AllTcp(proto, port))
    ensures Peers(b) != [] || b.ports.Some? ==> (BlockAdmits(p, c, b, src, proto, port) <==> BlockAllows(p, c, b, src, proto, port))
  {
    hide PeerExact, PeerAllows, PeerAdmits, AllSelected, AllBlocked, AnyHas, PortListed;
    SomePeerExact(p, c, Peers(b), src);
    PeersHave(p, c, Peers(b), src);
    if Peers(b) == [] { NoResources(p, c); }
    if !Restricted(p, c, b) { NothingHas(src); }
  }

  lemma NoResources(p: Policy, c: Cluster)
    ensures Resources(p, c, []) == []
  {
  }

  lemma NothingHas(src: Addr)
    ensures !AnyHas([], src)
  {
  }

  // A policy within the guards lets in exactly what its blocks allow.
  lemma PolicyRefined(p: Policy, c: Cluster, src: Addr, proto: Protocol, port: nat)
    requires PolicyExact(p, c)
    ensures Admits(Compile(p, c), src, proto, port) <==> PolicyAllows(p, c, src, proto, port)
  {
    CompileAdmits(p, c, src, proto, port);
    if Ingress in p.types {
      hide BlockExact, BlockAdmits, BlockAllows, Compile;
      forall i | 0 <= i < |p.ingress|
        ensures p.ingress != [] && Empty(p.ingress[0]) && AllTcp(proto, port) ==> PolicyAllows(p, c, src, proto, port)
        ensures BlockAdmits(p, c, p.ingress[i], src, proto, port) ==> PolicyAllows(p, c, src, proto, port)
        ensures BlockAllows(p, c, p.ingress[i], src, proto, port) ==> Admitted(p, c, src, proto, port)
      {
        BlockRefined(p, c, i, src, proto, port);
      }
    }
  }

  lemma BlockRefined(p: Policy, c: Cluster, i: nat, src: Addr, proto: Protocol, port: nat)
    requires Ingress in p.types && PolicyExact(p, c) && i < |p.ingress|
    ensures Empty(p.ingress[0]) && AllTcp(proto, port) ==> PolicyAllows(p, c, src, proto, port)
    ensures BlockAdmits(p, c, p.ingress[i], src, proto, port) ==> PolicyAllows(p, c, src, proto, port)
    ensures BlockAllows(p, c, p.ingress[i], src, proto, port) ==> Admitted(p, c, src, proto, port)
  {
    hide BlockAdmits;
    ExactBlockAdmits(p, c, p.ingress[i], src, proto, port);
    if Empty(p.ingress[0]) {
      hide PeerAllows;
      assert AllTcp(proto, port) ==> BlockAllows(p, c, p.ingress[0], src, proto, port);
    }
  }

  // For a single block with at most one peer the guards are exact: outside
  // them some packet is let in or kept out wrongly. (The API server leaves
  // out empty lists of ports.)
  lemma OneBlockExactIff(p: Policy, c: Cluster, b: Block)
    requires p.ingress == [b] && |Peers(b)| <= 1 && b.ports != Some([])
    ensures (forall src, proto, port :: Admits(Compile(p, c), src, proto, port) <==> PolicyAllows(p, c, src, proto, port))
       <==> PolicyExact(p, c)
  {
    if PolicyExact(p, c) {
      forall src: Addr, proto, port: nat ensures Admits(Compile(p, c), src, proto, port) <==> PolicyAllows(p, c, src, proto, port) {
        PolicyRefined(p, c, src, proto, port);
      }
    } else {
      var src, proto, port := WronglyDecided(p, c, b);
      CompileAdmits(p, c, src, proto, port);
    }
  }

  // A packet that the block's rules decide wrongly.
  lemma WronglyDecided(p: Policy, c: Cluster, b: Block) returns (src: Addr, proto: Protocol, port: nat)
    requires p.ingress == [b] && |Peers(b)| <= 1 && b.ports != Some([]) && !PolicyExact(p, c)
    ensures Admitted(p, c, src, proto, port) != PolicyAllows(p, c, src, proto, port)
  {
    if Ingress !in p.types {
      src, proto, port := 0, TCP, 0;
    } else {
      proto, port := if b.ports.Some? then ProtocolOf(b.ports.value[0]) else TCP, if b.ports.Some? then b.ports.value[0].port else 80;
      assert p.ingress[0] == b;
      if Peers(b) == [] { src := 0; WronglyClosed(p, c, b, src, proto, port); } else { src := WrongSource(p, c, b, proto, port); }
      hide BlockAllows, BlockAdmits;
    }
    hide BlockExact, Restricted, PeerAllows;
    OneBlockDecides(p, c, b, src, proto, port);
  }

  lemma WronglyClosed(p: Policy, c: Cluster, b: Block, src: Addr, proto: Protocol, port: nat)
    requires p.ingress == [b] && Peers(b) == [] && b.ports != Some([]) && !BlockExact(p, c, b) && PortAllowed(b, proto, port)
    ensures !Empty(b) && !BlockAdmits(p, c, b, src, proto, port) && BlockAllows(p, c, b, src, proto, port)
  {
    NoResources(p, c);
  }

  lemma WrongSource(p: Policy, c: Cluster, b: Block, proto: Protocol, port: nat) returns (src: Addr)
    requires p.ingress == [b] && |Peers(b)| == 1 && b.ports != Some([]) && !BlockExact(p, c, b) && PortAllowed(b, proto, port)
    ensures !Empty(b) && BlockAdmits(p, c, b, src, proto, port) != BlockAllows(p, c, b, src, proto, port)
  {
    hide PeerAllows, PeerAdmits, AllSelected, AllBlocked, AnyHas, PortAllowed, PortListed, AllTcp;
    if b.ports.Some? && !Restricted(p, c, b) {
      src := 0;
      NothingNamed(p, c, b, src);
    } else {
      hide PeerExact, Restricted;
      PeerExactIff(p, c, Peers(b)[0]);
      src :| PeerAdmits(p, c, Peers(b)[0], src) != PeerAllows(p, c, Peers(b)[0], src);
      if !Restricted(p, c, b) { NothingNamed(p, c, b, src); }
    }
    PortsAgree(b, proto, port);
  }

  lemma PortsAgree(b: Block, proto: Protocol, port: nat)
    requires b.ports != Some([]) && PortAllowed(b, proto, port)
    ensures if b.ports.Some? then PortListed(b.ports.value, proto, port) else AllTcp(proto, port)
  {
  }

  lemma OneBlockDecides(p: Policy, c: Cluster, b: Block, src: Addr, proto: Protocol, port: nat)
    requires p.ingress == [b]
    ensures Admitted(p, c, src, proto, port) <==> (Empty(b) && AllTcp(proto, port)) || BlockAdmits(p, c, b, src, proto, port)
    ensures PolicyAllows(p, c, src, proto, port) <==> (Ingress in p.types ==> BlockAllows(p, c, b, src, proto, port))
  {
    hide BlockAllows, BlockAdmits;
    assert p.ingress[0] == b;
  }

  // A peer that names no source the driver recognises allows none.
  lemma NothingNamed(p: Policy, c: Cluster, b: Block, src: Addr)
    requires !Restricted(p, c, b) && |Peers(b)| == 1
    ensures !PeerAllows(p, c, Peers(b)[0], src) && !PeerAdmits(p, c, Peers(b)[0], src)
  {
    PeersHave(p, c, Peers(b), src);
    NothingHas(src);
    assert !IsSelector(Peers(b)[0]);
  }

  // ---------- what one peer's rules let in, in the cluster's own terms ----------

  // A block of one peer that names sources: its ports, and the peer's sources.
  lemma OnePeerAdmits(p: Policy, c: Cluster, peer: Peer, ports: Option<seq<PolicyPort>>, src: Addr, proto: Protocol, port: nat)
    requires p.ingress == [Block(Some([peer]), ports)] && IsSelector(peer)
    ensures Admits(Compile(p, c), src, proto, port)
       <==> (if ports.Some? then exists i :: 0 <= i < |ports.value| && ports.value[i].port == port
                                             && proto == if ports.value[i].protocol.Some? then ports.value[i].protocol.value else TCP
             else proto == TCP && 1 <= port <= 65535)
            && PeerAdmits(p, c, peer, src)
  {
    hide AnyHas, AllSelected, AllBlocked, PeerAdmits;
    var b := p.ingress[0];
    CompileAdmits(p, c, src, proto, port);
    OneBlockDecides(p, c, b, src, proto, port);
    assert Peers(b)[0] == peer;
    assert !Empty(b) && Restricted(p, c, b);
    assert SomePeerAdmits(p, c, Peers(b), src) <==> PeerAdmits(p, c, peer, src);
    if ports.Some? && PortListed(ports.value, proto, port) {
      var i :| 0 <= i < |ports.value| && ports.value[i].port == port && ProtocolOf(ports.value[i]) == proto;
    }
  }

  // A selector of pods alone: the pods of the policy's own namespace.
  lemma OwnPodsAdmitted(p: Policy, c: Cluster, labels: Labels -> bool, src: Addr, port: nat)
    requires p.ingress == [Block(Some([Selectors(None, Some(Where(labels)))]), None)]
    ensures Admits(Compile(p, c), src, TCP, port)
       <==> 1 <= port <= 65535
            && exists pod :: pod in c.pods && pod.ip == Some(src) && pod.namespace == p.namespace.name && labels(pod.labels)
  {
    OnePeerAdmits(p, c, Selectors(None, Some(Where(labels))), None, src, TCP, port);
    if pod :| pod in c.pods && pod.ip == Some(src) && pod.namespace == p.namespace.name && labels(pod.labels) {
      var i :| 0 <= i < |c.pods| && c.pods[i] == pod;
    }
  }

  // With `{}` for the namespaces: such pods of any namespace.
  lemma AllPodsAdmitted(p: Policy, c: Cluster, labels: Labels -> bool, src: Addr, port: nat)
    requires p.ingress == [Block(Some([Selectors(Some(Everything), Some(Where(labels)))]), None)]
    ensures Admits(Compile(p, c), src, TCP, port)
       <==> 1 <= port <= 65535 && exists pod :: pod in c.pods && pod.ip == Some(src) && labels(pod.labels)
  {
    OnePeerAdmits(p, c, Selectors(Some(Everything), Some(Where(labels))), None, src, TCP, port);
    if pod :| pod in c.pods && pod.ip == Some(src) && labels(pod.labels) {
      var i :| 0 <= i < |c.pods| && c.pods[i] == pod;
    }
  }

  // No namespace after the `n`-th is selected, and the `n`-th is.
  ghost predicate LastSelected(nss: seq<Namespace>, labels: Labels -> bool, n: int) {
    0 <= n < |nss| && labels(nss[n].labels) && forall m :: n < m < |nss| ==> !labels(nss[m].labels)
  }

  lemma {:induction false} LastOf(nss: seq<Namespace>, labels: Labels -> bool) returns (n: int)
    ensures NamespacesFrom(nss, Where(labels)) == [] ==> n == -1 && forall m :: 0 <= m < |nss| ==> !labels(nss[m].labels)
    ensures NamespacesFrom(nss, Where(labels)) != [] ==>
              LastSelected(nss, labels, n) && NamespacesFrom(nss, Where(labels))[|NamespacesFrom(nss, Where(labels))| - 1] == nss[n]
  {
    n := -1;
    if nss != [] {
      n := LastOf(nss[1..], labels);
      n := if n >= 0 then n + 1 else if labels(nss[0].labels) then 0 else -1;
      forall m | 0 < m < |nss| ensures nss[m] == nss[1..][m - 1] {}
    }
  }

  // With a selector of namespaces: such pods of the last namespace it selects.
  lemma LastNamespacePodsAdmitted(p: Policy, c: Cluster, nsLabels: Labels -> bool, labels: Labels -> bool, src: Addr, port: nat)
    requires p.ingress == [Block(Some([Selectors(Some(Where(nsLabels)), Some(Where(labels)))]), None)]
    ensures Admits(Compile(p, c), src, TCP, port)
       <==> 1 <= port <= 65535
            && exists pod, n :: pod in c.pods && pod.ip == Some(src) && labels(pod.labels)
                                && LastSelected(c.namespaces, nsLabels, n) && pod.namespace == c.namespaces[n].name
  {
    OnePeerAdmits(p, c, Selectors(Some(Where(nsLabels)), Some(Where(labels))), None, src, TCP, port);
    var last := LastOf(c.namespaces, nsLabels);
    if pod, n :| pod in c.pods && pod.ip == Some(src) && labels(pod.labels)
                 && LastSelected(c.namespaces, nsLabels, n) && pod.namespace == c.namespaces[n].name {
      assert n == last;
      var i :| 0 <= i < |c.pods| && c.pods[i] == pod;
    }
  }

  // Namespaces without a selector of pods: any source in the range of one of
  // those selected, and none if none is.
  lemma NamespacesAdmitted(p: Policy, c: Cluster, labels: Labels -> bool, pods: Option<Selector>, src: Addr, port: nat)
    requires pods in {None, Some(Everything)}
    requires p.ingress == [Block(Some([Selectors(Some(Where(labels)), pods)]), None)]
    ensures Admits(Compile(p, c), src, TCP, port)
       <==> 1 <= port <= 65535 && exists ns :: ns in c.namespaces && labels(ns.labels) && ns.cidr.lo <= src <= ns.cidr.hi
  {
    OnePeerAdmits(p, c, Selectors(Some(Where(labels)), pods), None, src, TCP, port);
    if ns :| ns in c.namespaces && labels(ns.labels) && ns.cidr.lo <= src <= ns.cidr.hi {
      var i :| 0 <= i < |c.namespaces| && c.namespaces[i] == ns;
      assert NamespaceAllows(c, c.namespaces[i], pods, src);
    }
  }

  // `{}` for the pods alone: the policy's own namespace.
  lemma OwnNamespaceAdmitted(p: Policy, c: Cluster, src: Addr, port: nat)
    requires p.ingress == [Block(Some([Selectors(None, Some(Everything))]), None)]
    ensures Admits(Compile(p, c), src, TCP, port) <==> 1 <= port <= 65535 && p.namespace.cidr.lo <= src <= p.namespace.cidr.hi
  {
    OnePeerAdmits(p, c, Selectors(None, Some(Everything)), None, src, TCP, port);
  }

  // ---------- `{}` after another block ----------

  // The rules depend on the policy's own namespace only.
  lemma {:induction false} SelectedSame(p: Policy, q: Policy, c: Cluster, peers: seq<Peer>)
    requires p.namespace == q.namespace
    ensures AllSelected(p, c, peers) == AllSelected(q, c, peers)
  {
    if peers != [] { SelectedSame(p, q, c, peers[..|peers| - 1]); }
  }

  lemma {:induction false} PortRulesSame(p: Policy, q: Policy, c: Cluster, b: Block, ports: seq<PolicyPort>)
    requires p.namespace == q.namespace
    ensures AllPortRules(p, c, b, ports) == AllPortRules(q, c, b, ports)
  {
    SelectedSame(p, q, c, Peers(b));
    if ports != [] { PortRulesSame(p, q, c, b, ports[..|ports| - 1]); }
  }

  lemma BlockRulesSame(p: Policy, q: Policy, c: Cluster, b: Block)
    requires p.namespace == q.namespace
    ensures BlockRules(p, c, b) == BlockRules(q, c, b)
  {
    hide AllPortRules, ResourceRules;
    SelectedSame(p, q, c, Peers(b));
    if b.ports.Some? { PortRulesSame(p, q, c, b, b.ports.value); }
  }

  lemma {:induction false} AllBlockRulesSame(p: Policy, q: Policy, c: Cluster, bs: seq<Block>)
    requires p.namespace == q.namespace
    ensures AllBlockRules(p, c, bs) == AllBlockRules(q, c, bs)
  {
    if bs != [] {
      hide BlockRules;
      AllBlockRulesSame(p, q, c, bs[..|bs| - 1]);
      BlockRulesSame(p, q, c, bs[|bs| - 1]);
    }
  }

  lemma {:induction false} AllBlockRulesConcat(p: Policy, c: Cluster, a: seq<Block>, b: seq<Block>)
    ensures AllBlockRules(p, c, a + b) == AllBlockRules(p, c, a) + AllBlockRules(p, c, b)
  {
    hide BlockRules;
    if b == [] {
      assert a + b == a;
    } else {
      AllBlockRulesConcat(p, c, a, b[..|b| - 1]);
      assert (a + b)[..|a + b| - 1] == a + b[..|b| - 1];
    }
  }

  function Without(p: Policy, i: nat): Policy
    requires i < |p.ingress|
  {
    p.(ingress := p.ingress[..i] + p.ingress[i + 1..])
  }

  lemma NoRules(p: Policy, c: Cluster, b: Block)
    requires Empty(b)
    ensures BlockRules(p, c, b) == []
  {
    NoResources(p, c);
  }

  lemma OneBlockRules(p: Policy, c: Cluster, b: Block)
    ensures AllBlockRules(p, c, [b]) == BlockRules(p, c, b)
  {
    hide BlockRules;
    assert [b][..0] == [];
  }

  // `{}` counts only as the first block: anywhere else it adds no rule, and
  // the rules are those of the policy without it.
  lemma LaterOpenBlockIsLost(p: Policy, c: Cluster, i: nat)
    requires 0 < i < |p.ingress| && Empty(p.ingress[i])
    ensures BlockRules(p, c, p.ingress[i]) == []
    ensures Compile(p, c) == Compile(Without(p, i), c)
  {
    hide BlockRules, RuleBody;
    var before, after, q := p.ingress[..i], p.ingress[i + 1..], Without(p, i);
    NoRules(p, c, p.ingress[i]);
    assert p.ingress == before + [p.ingress[i]] + after;
    AllBlockRulesConcat(p, c, before + [p.ingress[i]], after);
    AllBlockRulesConcat(p, c, before, [p.ingress[i]]);
    AllBlockRulesConcat(p, c, before, after);
    OneBlockRules(p, c, p.ingress[i]);
    AllBlockRulesSame(p, q, c, q.ingress);
    assert q.ingress[0] == p.ingress[0];
    hide AllBlockRules, Empty;
  }

  // The only thing wrong with the policy is a `{}` that is not the first block.
  predicate OnlyOpenMisplaced(p: Policy, c: Cluster) {
    && Ingress in p.types && p.ingress != [] && !Empty(p.ingress[0])
    && (exists i :: 0 <= i < |p.ingress| && Empty(p.ingress[i]))
    && (forall i :: 0 <= i < |p.ingress| && !Empty(p.ingress[i]) ==> BlockExact(p, c, p.ingress[i]))
  }

  predicate OtherBlockAllows(p: Policy, c: Cluster, src: Addr, proto: Protocol, port: nat) {
    exists i :: 0 <= i < |p.ingress| && !Empty(p.ingress[i]) && BlockAllows(p, c, p.ingress[i], src, proto, port)
  }

  lemma OthersDecide(p: Policy, c: Cluster, src: Addr, proto: Protocol, port: nat)
    requires OnlyOpenMisplaced(p, c)
    ensures Admits(Compile(p, c), src, proto, port) <==> OtherBlockAllows(p, c, src, proto, port)
    ensures PolicyAllows(p, c, src, proto, port) <==> AllTcp(proto, port) || OtherBlockAllows(p, c, src, proto, port)
  {
    CompileAdmits(p, c, src, proto, port);
    hide BlockExact, BlockAdmits, BlockAllows, Compile, AllTcp, Admits;
    forall i | 0 <= i < |p.ingress|
      ensures Empty(p.ingress[i]) ==> !BlockAdmits(p, c, p.ingress[i], src, proto, port)
      ensures Empty(p.ingress[i]) ==> (BlockAllows(p, c, p.ingress[i], src, proto, port) <==> AllTcp(proto, port))
      ensures !Empty(p.ingress[i]) ==>
                (BlockAdmits(p, c, p.ingress[i], src, proto, port) <==> BlockAllows(p, c, p.ingress[i], src, proto, port))
    {
      BlockDecides(p, c, p.ingress[i], src, proto, port);
    }
  }

  lemma BlockDecides(p: Policy, c: Cluster, b: Block, src: Addr, proto: Protocol, port: nat)
    requires p.ingress != [] && (Empty(b) || BlockExact(p, c, b))
    ensures Empty(b) ==> !BlockAdmits(p, c, b, src, proto, port) && (BlockAllows(p, c, b, src, proto, port) <==> AllTcp(proto, port))
    ensures !Empty(b) ==> (BlockAdmits(p, c, b, src, proto, port) <==> BlockAllows(p, c, b, src, proto, port))
  {
    hide AllTcp, PeerAllows, PeerExact;
    if Empty(b) { NoResources(p, c); } else { ExactBlockAdmits(p, c, b, src, proto, port); }
  }

  // Such a policy is still right exactly when its other blocks allow all TCP.
  lemma MisplacedOpenIff(p: Policy, c: Cluster)
    requires OnlyOpenMisplaced(p, c)
    ensures (forall src, proto, port :: Admits(Compile(p, c), src, proto, port) <==> PolicyAllows(p, c, src, proto, port))
       <==> forall src: Addr, port: nat :: 1 <= port <= 65535 ==> OtherBlockAllows(p, c, src, TCP, port)
  {
    forall src: Addr, proto, port: nat
      ensures Admits(Compile(p, c), src, proto, port) <==> OtherBlockAllows(p, c, src, proto, port)
      ensures PolicyAllows(p, c, src, proto, port) <==> AllTcp(proto, port) || OtherBlockAllows(p, c, src, proto, port)
    {
      OthersDecide(p, c, src, proto, port);
    }
    hide OtherBlockAllows, PolicyAllows, Admits, Compile;
    if exists src: Addr, port: nat :: 1 <= port <= 65535 && !OtherBlockAllows(p, c, src, TCP, port) {
      var src: Addr, port: nat :| 1 <= port <= 65535 && !OtherBlockAllows(p, c, src, TCP, port);
      assert Admits(Compile(p, c), src, TCP, port) != PolicyAllows(p, c, src, TCP, port);
    }
  }

  // One such policy: a block for one address, then `{}`.
  lemma LaterOpenBlockExample(p: Policy, c: Cluster, only: Addr)
    requires Ingress in p.types
    requires p.ingress == [Block(Some([IpBlock(AddrRange(only, only), [])]), None), Block(None, None)]
    ensures PolicyAllows(p, c, only + 1, TCP, 80) && !Admits(Compile(p, c), only + 1, TCP, 80)
  {
    var first, open := p.ingress[0], p.ingress[1];
    assert BlockAllows(p, c, open, only + 1, TCP, 80);
    CompileAdmits(p, c, only + 1, TCP, 80);
    assert !PeerAdmits(p, c, Peers(first)[0], only + 1);
    NoResources(p, c);
    forall i | 0 <= i < |p.ingress| ensures !BlockAdmits(p, c, p.ingress[i], only + 1, TCP, 80) {
      assert p.ingress[i] == first || p.ingress[i] == open;
    }
  }

  // ---------- the driver ----------

  class NetworkPolicyDriver {
    const cluster: Cluster
    var rules: seq<Rule>

    constructor (cluster: Cluster)
      ensures this.cluster == cluster && rules == []
    {
      this.cluster := cluster;
      rules := [];
    }

    // Pods of one namespace (or of all), or of the selected namespaces.
    method GetPods(pods: Selector, namespace: Option<string>, namespaces: Option<Selector>) returns (rs: seq<Resource>)
      ensures rs == if namespaces.Some? then SelectedPods(cluster, pods, namespaces.value) else PodsFrom(cluster.pods, pods, namespace)
    {
      rs := [];
      if namespaces.Some? {
        var nss := NamespacesFrom(cluster.namespaces, namespaces.value);
        for n := 0 to |nss|
          invariant rs == if n == 0 then [] else PodsFrom(cluster.pods, pods, Some(nss[n - 1].name))
        {
          rs := PodsFrom(cluster.pods, pods, Some(nss[n].name));
        }
      } else {
        rs := PodsFrom(cluster.pods, pods, namespace);
      }
    }

    method ParseSelectors(p: Policy, peers: seq<Peer>) returns (allowAll: bool, selectors: bool, allowed: seq<Resource>)
      ensures allowAll == AllowAll(peers) && selectors == HasSelectors(peers) && allowed == AllSelected(p, cluster, peers)
    {
      hide SelectorResources, AllowsAll, IsSelector;
      allowAll, selectors, allowed := false, false, [];
      for n := 0 to |peers|
        invariant allowAll == AllowAll(peers[..n]) && selectors == HasSelectors(peers[..n])
        invariant allowed == AllSelected(p, cluster, peers[..n])
      {
        assert peers[..n + 1][..n] == peers[..n] && peers[..n + 1][n] == peers[n];
        NextPeer(peers, n);
        var all, isSelector, more := ParseSelector(p, peers[n]);
        allowAll, selectors, allowed := allowAll || all, selectors || isSelector, allowed + more;
      }
      assert peers[..|peers|] == peers;
    }

    method ParseSelector(p: Policy, peer: Peer) returns (all: bool, isSelector: bool, more: seq<Resource>)
      ensures all == AllowsAll(peer) && isSelector == IsSelector(peer) && more == SelectorResources(p, cluster, peer)
    {
      all, isSelector, more := false, false, [];
      match peer
      case IpBlock(_, _) =>
      case Selectors(Some(Everything), pods) =>
        isSelector := true;
        if AnyPod(pods) { all := true; } else { more := GetPods(pods.value, None, None); }
      case Selectors(Some(namespaces), pods) =>
        isSelector := true;
        if AnyPod(pods) {
          more := NamespaceResources(NamespacesFrom(cluster.namespaces, namespaces));
        } else {
          more := GetPods(pods.value, None, Some(namespaces));
        }
      case Selectors(None, Some(Everything)) =>
        isSelector := true;
        more := [NamespaceResource(p.namespace)];
      case Selectors(None, Some(pods)) =>
        isSelector := true;
        more := GetPods(pods, Some(p.namespace.name), None);
      case Selectors(None, None) =>
    }

    lemma NextPeer(peers: seq<Peer>, n: nat)
      requires n < |peers|
      ensures AllowAll(peers[..n + 1]) <==> AllowAll(peers[..n]) || AllowsAll(peers[n])
      ensures HasSelectors(peers[..n + 1]) <==> HasSelectors(peers[..n]) || IsSelector(peers[n])
    {
      var now, next := peers[..n], peers[..n + 1];
      if i :| 0 <= i < n && AllowsAll(now[i]) { assert next[i] == now[i]; }
      if i :| 0 <= i < n && IsSelector(now[i]) { assert next[i] == now[i]; }
      if i :| 0 <= i < n + 1 && AllowsAll(next[i]) { assert i < n ==> now[i] == next[i]; }
      if i :| 0 <= i < n + 1 && IsSelector(next[i]) { assert i < n ==> now[i] == next[i]; }
      assert next[n] == peers[n];
    }

    method ParseIpBlocks(peers: seq<Peer>) returns (allowed: seq<Resource>)
      ensures allowed == AllBlocked(peers)
    {
      allowed := [];
      for n := 0 to |peers|
        invariant allowed == AllBlocked(peers[..n])
      {
        assert peers[..n + 1][..n] == peers[..n];
        if peers[n].IpBlock? {
          var more := ParseIpBlock(peers[n].cidr, peers[n].except);
          allowed := allowed + more;
        }
      }
      assert peers[..|peers|] == peers;
    }

    method ParseIpBlock(cidr: Cidr, except: seq<Cidr>) returns (allowed: seq<Resource>)
      ensures allowed == BlockedResources(IpBlock(cidr, except))
    {
      if except == [] { return [CidrResource(cidr)]; }
      allowed := [];
      for e := 0 to |except|
        invariant allowed == ExceptResources(cidr, except[..e])
      {
        assert except[..e + 1][..e] == except[..e];
        allowed := allowed + CidrResources(Exclude(cidr, except[e]));
      }
      assert except[..|except|] == except;
    }

    // One rule for each resource with an address.
    method CreateResourceRules(allowed: seq<Resource>, port: Option<PortNumber>, protocol: Option<Protocol>)
      modifies this
      ensures rules == old(rules) + ResourceRules(allowed, port, protocol)
    {
      for n := 0 to |allowed|
        invariant rules == old(rules) + ResourceRules(allowed[..n], port, protocol)
      {
        assert allowed[..n + 1][..n] == allowed[..n];
        var (cidr, namespace) := Details(allowed[n]);
        if cidr.Some? { rules := rules + [RuleBody(port, protocol, cidr, namespace)]; }
      }
      assert allowed[..|allowed|] == allowed;
    }

    method ParseBlock(p: Policy, b: Block)
      modifies this
      ensures rules == old(rules) + BlockRules(p, cluster, b)
    {
      hide AllowAll, HasSelectors, AllSelected, AllBlocked, ResourceRules, AllPortRules;
      var allowAll, selectors, allowed := ParseSelectors(p, Peers(b));
      var blocks := ParseIpBlocks(Peers(b));
      allowed := allowed + blocks;
      var restricted := allowed != [] || allowAll || selectors;
      if b.ports.Some? {
        ParsePorts(p, b, b.ports.value, allowed, restricted, allowAll);
      } else if restricted {
        CreateResourceRules(allowed, None, None);
        if allowAll { rules := rules + [RuleBody(None, None, None, None)]; }
      }
    }

    method ParsePorts(p: Policy, b: Block, ports: seq<PolicyPort>, allowed: seq<Resource>, restricted: bool, allowAll: bool)
      requires allowed == Resources(p, cluster, Peers(b)) && restricted == Restricted(p, cluster, b) && allowAll == AllowAll(Peers(b))
      modifies this
      ensures rules == old(rules) + AllPortRules(p, cluster, b, ports)
    {
      hide Resources, Restricted, AllowAll, PortRules;
      for n := 0 to |ports|
        invariant rules == old(rules) + AllPortRules(p, cluster, b, ports[..n])
      {
        assert ports[..n + 1][..n] == ports[..n];
        ParsePort(p, b, ports[n], allowed, restricted, allowAll);
      }
      assert ports[..|ports|] == ports;
    }

    method ParsePort(p: Policy, b: Block, port: PolicyPort, allowed: seq<Resource>, restricted: bool, allowAll: bool)
      requires allowed == Resources(p, cluster, Peers(b)) && restricted == Restricted(p, cluster, b) && allowAll == AllowAll(Peers(b))
      modifies this
      ensures rules == old(rules) + PortRules(p, cluster, b, port)
    {
      hide Resources, Restricted, AllowAll, ResourceRules, RuleBody;
      if restricted { CreateResourceRules(allowed, Some(port.port), port.protocol); }
      if allowAll || !restricted { rules := rules + [RuleBody(Some(port.port), port.protocol, None, None)]; }
    }

    // Appends the rules of a policy. Within the guards, they let in exactly
    // what the policy allows.
    method ParseSgRules(p: Policy)
      modifies this
      ensures rules == old(rules) + Compile(p, cluster)
      ensures old(rules) == [] ==> forall src, proto, port :: Admits(rules, src, proto, port) <==> Admitted(p, cluster, src, proto, port)
      ensures old(rules) == [] && PolicyExact(p, cluster) ==>
                forall src, proto, port :: Admits(rules, src, proto, port) <==> PolicyAllows(p, cluster, src, proto, port)
    {
      if p.ingress == [] {
        if p.types == [Egress] { rules := rules + [Rule(None, None, None, None)]; }
      } else {
        ParseBlocks(p);
      }
      CompileMeans(p, cluster);
      assert old(rules) == [] ==> rules == Compile(p, cluster);
    }

    method ParseBlocks(p: Policy)
      requires p.ingress != []
      modifies this
      ensures rules == old(rules) + Compile(p, cluster)
    {
      hide BlockRules, Empty, RuleBody;
      if Empty(p.ingress[0]) { rules := rules + [RuleBody(None, None, None, None)]; }
      ghost var was := rules;
      for n := 0 to |p.ingress|
        invariant rules == was + AllBlockRules(p, cluster, p.ingress[..n])
      {
        assert p.ingress[..n + 1][..n] == p.ingress[..n];
        ParseBlock(p, p.ingress[n]);
      }
      assert p.ingress[..|p.ingress|] == p.ingress;
    }

    lemma CompileMeans(p: Policy, c: Cluster)
      ensures forall src, proto, port :: Admits(Compile(p, c), src, proto, port) <==> Admitted(p, c, src, proto, port)
      ensures PolicyExact(p, c) ==> forall src, proto, port :: Admits(Compile(p, c), src, proto, port) <==> PolicyAllows(p, c, src, proto, port)
    {
      forall src: Addr, proto, port: nat
        ensures Admits(Compile(p, c), src, proto, port) <==> Admitted(p, c, src, proto, port)
        ensures PolicyExact(p, c) ==> (Admits(Compile(p, c), src, proto, port) <==> PolicyAllows(p, c, src, proto, port))
      {
        CompileAdmits(p, c, src, proto, port);
        if PolicyExact(p, c) { PolicyRefined(p, c, src, proto, port); }
      }
    }
  }
}
