/**
 The access list of a load balancer's listener, from the security groups of
 the pods behind it: what the groups let in to the target port, the listener
 lets in, too.
 */
module ListenerAcl {
  import opened Options
  import NP = NetworkPolicy

  type Addr = NP.Addr
  type Cidr = NP.Cidr
  type SgId = string

  datatype SgRule = SgRule(ingress: bool, protocol: Option<NP.Protocol>, ports: Option<(nat, nat)>, prefix: Option<Cidr>,
                           remoteGroup: Option<SgId>)

  type Groups = map<SgId, seq<SgRule>>

  // The update sent to Octavia; without a list the listener is open to all.
  datatype Listener = Listener(allowed: Option<seq<Cidr>>, up: bool)

  predicate ListenerAdmits(l: Listener, src: Addr) {
    l.up && (l.allowed.None? || l.allowed.value == [] || InSome(l.allowed.value, src))
  }

  predicate InSome(cidrs: seq<Cidr>, src: Addr) { exists i :: 0 <= i < |cidrs| && NP.In(src, cidrs[i]) }

  // The test of the pass over a group's rules. A range that starts at 0 counts
  // as none.
  predicate Covers(r: SgRule, proto: NP.Protocol, port: nat) {
    && r.remoteGroup.None? && r.protocol == Some(proto) && r.ingress
    && (r.ports.Some? && r.ports.value.0 != 0 ==> r.ports.value.0 <= port <= r.ports.value.1)
  }

  // The rule lets the source in to the port, by its prefix.
  predicate RuleAdmits(r: SgRule, proto: NP.Protocol, port: nat, src: Addr) {
    match r
    case SgRule(true, Some(p), ports, prefix, None) =>
      && p == proto
      && (ports.None? || ports.value.0 == 0 || ports.value.0 <= port <= ports.value.1)
      && (prefix.None? || prefix.value.lo <= src <= prefix.value.hi)
    case _ => false
  }

  predicate RulesAdmit(rules: seq<SgRule>, proto: NP.Protocol, port: nat, src: Addr) {
    exists i :: 0 <= i < |rules| && RuleAdmits(rules[i], proto, port, src)
  }

  // Some group other than the load balancer's own is a default one, or has a
  // rule that lets the source in.
  predicate GroupsAdmit(groups: Groups, sgs: seq<SgId>, lbSg: SgId, defaults: set<SgId>, proto: NP.Protocol, port: nat, src: Addr) {
    exists i :: 0 <= i < |sgs| && sgs[i] != lbSg && GroupAdmits(groups, sgs[i], defaults, proto, port, src)
  }

  predicate GroupAdmits(groups: Groups, sg: SgId, defaults: set<SgId>, proto: NP.Protocol, port: nat, src: Addr) {
    sg in defaults || RulesAdmit(RulesOf(groups, sg), proto, port, src)
  }

  function RulesOf(groups: Groups, sg: SgId): seq<SgRule> { if sg in groups then groups[sg] else [] }

  // What the passes over the groups have found: that the listener is open to
  // all, or the prefixes of the rules.
  predicate Found(open: bool, cidrs: seq<Cidr>, src: Addr) { open || InSome(cidrs, src) }

  lemma InSomeSnoc(cidrs: seq<Cidr>, c: Cidr, src: Addr)
    ensures InSome(cidrs + [c], src) <==> InSome(cidrs, src) || NP.In(src, c)
  {
    if i :| 0 <= i < |cidrs| && NP.In(src, cidrs[i]) { assert (cidrs + [c])[i] == cidrs[i]; }
    assert (cidrs + [c])[|cidrs|] == c;
    if i :| 0 <= i < |cidrs + [c]| && NP.In(src, (cidrs + [c])[i]) { assert i < |cidrs| ==> (cidrs + [c])[i] == cidrs[i]; }
  }

  lemma RulesAdmitNext(rules: seq<SgRule>, n: nat, proto: NP.Protocol, port: nat, src: Addr)
    requires n < |rules|
    ensures RulesAdmit(rules[..n + 1], proto, port, src) <==> RulesAdmit(rules[..n], proto, port, src) || RuleAdmits(rules[n], proto, port, src)
  {
    hide RuleAdmits;
    var now, next := rules[..n], rules[..n + 1];
    if i :| 0 <= i < n && RuleAdmits(now[i], proto, port, src) { assert next[i] == now[i]; }
    if i :| 0 <= i < n + 1 && RuleAdmits(next[i], proto, port, src) { assert i < n ==> now[i] == next[i]; }
    assert next[n] == rules[n];
  }

  lemma GroupsAdmitNext(groups: Groups, sgs: seq<SgId>, n: nat, lbSg: SgId, defaults: set<SgId>, proto: NP.Protocol, port: nat, src: Addr)
    requires n < |sgs|
    ensures GroupsAdmit(groups, sgs[..n + 1], lbSg, defaults, proto, port, src)
       <==> GroupsAdmit(groups, sgs[..n], lbSg, defaults, proto, port, src)
            || (sgs[n] != lbSg && GroupAdmits(groups, sgs[n], defaults, proto, port, src))
  {
    hide GroupAdmits;
    var now, next := sgs[..n], sgs[..n + 1];
    if i :| 0 <= i < n && now[i] != lbSg && GroupAdmits(groups, now[i], defaults, proto, port, src) { assert next[i] == now[i]; }
    if i :| 0 <= i < n + 1 && next[i] != lbSg && GroupAdmits(groups, next[i], defaults, proto, port, src) { assert i < n ==> now[i] == next[i]; }
    assert next[n] == sgs[n];
  }

  // Adds what one group's rules let in.
  method CollectRules(rules: seq<SgRule>, proto: NP.Protocol, port: nat, wasOpen: bool, was: seq<Cidr>) returns (open: bool, cidrs: seq<Cidr>)
    ensures forall src :: Found(open, cidrs, src) <==> Found(wasOpen, was, src) || RulesAdmit(rules, proto, port, src)
  {
    open, cidrs := wasOpen, was;
    for n := 0 to |rules|
      invariant forall src :: Found(open, cidrs, src) <==> Found(wasOpen, was, src) || RulesAdmit(rules[..n], proto, port, src)
    {
      ghost var before, beforeOpen := cidrs, open;
      if Covers(rules[n], proto, port) {
        if rules[n].prefix.Some? {
          cidrs := cidrs + [rules[n].prefix.value];
        } else {
          open := true;
        }
      }
      forall src: Addr ensures Found(open, cidrs, src) <==> Found(wasOpen, was, src) || RulesAdmit(rules[..n + 1], proto, port, src) {
        RulesAdmitNext(rules, n, proto, port, src);
        if rules[n].prefix.Some? { InSomeSnoc(before, rules[n].prefix.value, src); }
        assert Found(beforeOpen, before, src) <==> Found(wasOpen, was, src) || RulesAdmit(rules[..n], proto, port, src);
        hide InSome, RulesAdmit;
      }
    }
    assert rules[..|rules|] == rules;
  }

  // The listener admits a source exactly when some group does. Without any
  // such group or rule it is disabled.
  method CreateListenersAcls(groups: Groups, lbGroups: seq<SgId>, newSgs: seq<SgId>, lbSg: SgId, defaults: set<SgId>,
                             proto: NP.Protocol, port: nat)
    returns (l: Listener)
    ensures var sgs := if newSgs != [] then newSgs else lbGroups;
            && (forall src :: ListenerAdmits(l, src) <==> GroupsAdmit(groups, sgs, lbSg, defaults, proto, port, src))
            && (!l.up <==> forall src :: !GroupsAdmit(groups, sgs, lbSg, defaults, proto, port, src))
  {
    var sgs := if newSgs != [] then newSgs else lbGroups;
    var open, cidrs: seq<Cidr> := false, [];
    var n := 0;
    while n < |sgs|
      invariant n <= |sgs|
      invariant forall src :: Found(open, cidrs, src) <==> GroupsAdmit(groups, sgs[..n], lbSg, defaults, proto, port, src)
    {
      ghost var beforeOpen, before := open, cidrs;
      if sgs[n] != lbSg {
        if sgs[n] in defaults {
          DefaultAdmitsAll(groups, sgs, n, lbSg, defaults, proto, port);
          assert GroupsAdmit(groups, sgs, lbSg, defaults, proto, port, 0);
          return Update(None);
        }
        open, cidrs := CollectRules(RulesOf(groups, sgs[n]), proto, port, open, cidrs);
      }
      forall src: Addr ensures Found(open, cidrs, src) <==> GroupsAdmit(groups, sgs[..n + 1], lbSg, defaults, proto, port, src) {
        GroupsAdmitNext(groups, sgs, n, lbSg, defaults, proto, port, src);
        assert Found(beforeOpen, before, src) <==> GroupsAdmit(groups, sgs[..n], lbSg, defaults, proto, port, src);
        hide Found, GroupsAdmit, RulesAdmit;
      }
      n := n + 1;
    }
    assert sgs[..n] == sgs;
    l := Update(if open then None else Some(cidrs));
    ghost var some := if !open && cidrs != [] then cidrs[0].lo else 0;
    if l.up {
      assert open || NP.In(some, cidrs[0]);
      assert Found(open, cidrs, some);
      assert GroupsAdmit(groups, sgs, lbSg, defaults, proto, port, some);
    }
  }

  lemma DefaultAdmitsAll(groups: Groups, sgs: seq<SgId>, n: nat, lbSg: SgId, defaults: set<SgId>, proto: NP.Protocol, port: nat)
    requires n < |sgs| && sgs[n] != lbSg && sgs[n] in defaults
    ensures forall src :: GroupsAdmit(groups, sgs, lbSg, defaults, proto, port, src)
  {
    forall src: Addr ensures GroupsAdmit(groups, sgs, lbSg, defaults, proto, port, src) {
      assert GroupAdmits(groups, sgs[n], defaults, proto, port, src);
    }
  }

  // Rules of egress and rules for a remote group do not matter.
  function Relevant(rules: seq<SgRule>): seq<SgRule> {
    if rules == [] then []
    else
      var last := rules[|rules| - 1];
      Relevant(rules[..|rules| - 1]) + if last.ingress && last.remoteGroup == None then [last] else []
  }

  lemma {:induction false} RelevantAdmit(rules: seq<SgRule>, proto: NP.Protocol, port: nat, src: Addr)
    ensures RulesAdmit(Relevant(rules), proto, port, src) <==> RulesAdmit(rules, proto, port, src)
  {
    if rules != [] {
      var n, last := |rules| - 1, rules[|rules| - 1];
      var init := Relevant(rules[..n]);
      RelevantAdmit(rules[..n], proto, port, src);
      RulesAdmitNext(rules, n, proto, port, src);
      assert rules[..n + 1] == rules;
      if last.ingress && last.remoteGroup == None {
        var more := init + [last];
        assert more[..|init|] == init && more[..|init| + 1] == more;
        RulesAdmitNext(more, |init|, proto, port, src);
        assert Relevant(rules) == more;
      } else {
        assert Relevant(rules) == init;
        assert !RuleAdmits(last, proto, port, src);
      }
    }
  }

  function Stripped(groups: Groups): Groups { map g | g in groups :: Relevant(groups[g]) }

  lemma OnlyIngressPrefixesMatter(groups: Groups, sgs: seq<SgId>, lbSg: SgId, defaults: set<SgId>, proto: NP.Protocol, port: nat, src: Addr)
    ensures GroupsAdmit(Stripped(groups), sgs, lbSg, defaults, proto, port, src)
       <==> GroupsAdmit(groups, sgs, lbSg, defaults, proto, port, src)
  {
    hide RulesAdmit;
    forall sg: SgId
      ensures GroupAdmits(Stripped(groups), sg, defaults, proto, port, src) <==> GroupAdmits(groups, sg, defaults, proto, port, src)
    {
      RelevantAdmit(RulesOf(groups, sg), proto, port, src);
      assert RulesOf(Stripped(groups), sg) == Relevant(RulesOf(groups, sg));
    }
  }

  // In the groups' own terms: a default group, or a rule of ingress without a
  // remote group, for the protocol, the port and the source.
  lemma GroupsAdmitIff(groups: Groups, sgs: seq<SgId>, lbSg: SgId, defaults: set<SgId>, proto: NP.Protocol, port: nat, src: Addr)
    ensures GroupsAdmit(groups, sgs, lbSg, defaults, proto, port, src)
       <==> (exists g :: g in sgs && g != lbSg && g in defaults)
            || (exists g, r :: (g in sgs && g != lbSg && g in groups && r in groups[g])
                               && (r.ingress && r.remoteGroup == None && r.protocol == Some(proto))
                               && (r.ports == None || r.ports.value.0 == 0 || r.ports.value.0 <= port <= r.ports.value.1)
                               && (r.prefix == None || r.prefix.value.lo <= src <= r.prefix.value.hi))
  {
    if GroupsAdmit(groups, sgs, lbSg, defaults, proto, port, src) {
      var i :| 0 <= i < |sgs| && sgs[i] != lbSg && GroupAdmits(groups, sgs[i], defaults, proto, port, src);
      if sgs[i] !in defaults {
        var k :| 0 <= k < |RulesOf(groups, sgs[i])| && RuleAdmits(RulesOf(groups, sgs[i])[k], proto, port, src);
        assert sgs[i] in groups && groups[sgs[i]][k] in groups[sgs[i]];
      }
    }
    if g :| g in sgs && g != lbSg && g in defaults {
      var i :| 0 <= i < |sgs| && sgs[i] == g;
      assert GroupAdmits(groups, sgs[i], defaults, proto, port, src);
    }
    if g, r :| (g in sgs && g != lbSg && g in groups && r in groups[g])
               && (r.ingress && r.remoteGroup == None && r.protocol == Some(proto))
               && (r.ports == None || r.ports.value.0 == 0 || r.ports.value.0 <= port <= r.ports.value.1)
               && (r.prefix == None || r.prefix.value.lo <= src <= r.prefix.value.hi) {
      var i :| 0 <= i < |sgs| && sgs[i] == g;
      var k :| 0 <= k < |groups[g]| && groups[g][k] == r;
      assert RuleAdmits(groups[g][k], proto, port, src);
      assert GroupAdmits(groups, sgs[i], defaults, proto, port, src);
    }
  }

  // An empty list stands for no source, so the listener is switched off.
  function Update(allowed: Option<seq<Cidr>>): (l: Listener)
    ensures forall src :: ListenerAdmits(l, src) <==> allowed.None? || InSome(allowed.value, src)
  {
    Listener(allowed, allowed != Some([]))
  }

  // ---------- listeners of pods under a network policy ----------

  function Ingress(r: NP.Rule): SgRule { SgRule(true, r.protocol, r.ports, r.prefix, None) }

  function GroupOf(rules: seq<NP.Rule>): (s: seq<SgRule>)
    ensures |s| == |rules| && forall i :: 0 <= i < |s| ==> s[i] == Ingress(rules[i])
  {
    seq(|rules|, i requires 0 <= i < |rules| => Ingress(rules[i]))
  }

  // Rules that name a protocol, and no range that starts at 0.
  predicate Plain(rules: seq<NP.Rule>) {
    forall i :: 0 <= i < |rules| ==> rules[i].protocol.Some? && (rules[i].ports.Some? ==> rules[i].ports.value.0 != 0)
  }

  lemma PlainAdmit(rules: seq<NP.Rule>, proto: NP.Protocol, port: nat, src: Addr)
    requires Plain(rules)
    ensures RulesAdmit(GroupOf(rules), proto, port, src) <==> NP.Admits(rules, src, proto, port)
  {
    var group := GroupOf(rules);
    forall i | 0 <= i < |rules| ensures RuleAdmits(group[i], proto, port, src) <==> NP.RuleAdmits(rules[i], src, proto, port) {}
    if i :| 0 <= i < |rules| && NP.RuleAdmits(rules[i], src, proto, port) { assert RuleAdmits(group[i], proto, port, src); }
    if i :| 0 <= i < |group| && RuleAdmits(group[i], proto, port, src) { assert NP.RuleAdmits(rules[i], src, proto, port); }
  }

  lemma {:induction false} ResourceRulesPlain(rs: seq<NP.Resource>, port: Option<NP.PortNumber>, protocol: Option<NP.Protocol>)
    ensures Plain(NP.ResourceRules(rs, port, protocol))
  {
    if rs != [] { ResourceRulesPlain(rs[..|rs| - 1], port, protocol); }
  }

  lemma {:induction false} AllPortRulesPlain(p: NP.Policy, c: NP.Cluster, b: NP.Block, ports: seq<NP.PolicyPort>)
    ensures Plain(NP.AllPortRules(p, c, b, ports))
  {
    if ports != [] {
      var last := ports[|ports| - 1];
      AllPortRulesPlain(p, c, b, ports[..|ports| - 1]);
      ResourceRulesPlain(NP.Resources(p, c, NP.Peers(b)), Some(last.port), last.protocol);
    }
  }

  lemma BlockRulesPlain(p: NP.Policy, c: NP.Cluster, b: NP.Block)
    ensures Plain(NP.BlockRules(p, c, b))
  {
    hide NP.Resources, NP.ResourceRules, NP.AllPortRules, NP.AllowAll, NP.HasSelectors;
    if b.ports.Some? { AllPortRulesPlain(p, c, b, b.ports.value); }
    ResourceRulesPlain(NP.Resources(p, c, NP.Peers(b)), None, None);
  }

  lemma {:induction false} AllBlockRulesPlain(p: NP.Policy, c: NP.Cluster, bs: seq<NP.Block>)
    ensures Plain(NP.AllBlockRules(p, c, bs))
  {
    if bs != [] {
      AllBlockRulesPlain(p, c, bs[..|bs| - 1]);
      BlockRulesPlain(p, c, bs[|bs| - 1]);
      hide NP.BlockRules;
    }
  }

  // Next to its own rules a policy's group lets in the subnets of services and
  // hosts, by rules without a protocol.
  function Defaults(cidrs: seq<Cidr>): (rules: seq<NP.Rule>)
    ensures |rules| == |cidrs| && forall i :: 0 <= i < |rules| ==> rules[i] == NP.Rule(None, None, Some(cidrs[i]), None)
  {
    seq(|cidrs|, i requires 0 <= i < |cidrs| => NP.Rule(None, None, Some(cidrs[i]), None))
  }

  lemma DefaultsAdmit(cidrs: seq<Cidr>, proto: NP.Protocol, port: nat, src: Addr)
    ensures NP.Admits(Defaults(cidrs), src, proto, port) <==> InSome(cidrs, src)
  {
    var rules := Defaults(cidrs);
    if i :| 0 <= i < |cidrs| && NP.In(src, cidrs[i]) { assert NP.RuleAdmits(rules[i], src, proto, port); }
    if i :| 0 <= i < |rules| && NP.RuleAdmits(rules[i], src, proto, port) { assert NP.In(src, cidrs[i]); }
  }

  // The listener does not count them.
  lemma DefaultsUncounted(rules: seq<NP.Rule>, cidrs: seq<Cidr>, proto: NP.Protocol, port: nat, src: Addr)
    ensures RulesAdmit(GroupOf(rules + Defaults(cidrs)), proto, port, src) <==> RulesAdmit(GroupOf(rules), proto, port, src)
  {
    var all, own := GroupOf(rules + Defaults(cidrs)), GroupOf(rules);
    if i :| 0 <= i < |own| && RuleAdmits(own[i], proto, port, src) { assert all[i] == own[i]; }
    if i :| 0 <= i < |all| && RuleAdmits(all[i], proto, port, src) {
      assert all[i].protocol.Some?;
      assert all[i] == own[i];
    }
  }

  // What the listener makes of the policy's own rules: all of it, but for a
  // policy of egress only, whose rule names no protocol.
  lemma OwnRulesReach(p: NP.Policy, c: NP.Cluster, proto: NP.Protocol, port: nat, src: Addr)
    ensures RulesAdmit(GroupOf(NP.Compile(p, c)), proto, port, src)
       <==> NP.Admitted(p, c, src, proto, port) && !(p.ingress == [] && p.types == [NP.Egress])
  {
    hide NP.SomeBlockAdmits, NP.AllBlockRules;
    NP.CompileAdmits(p, c, src, proto, port);
    if !(p.ingress == [] && p.types == [NP.Egress]) {
      AllBlockRulesPlain(p, c, p.ingress);
      PlainAdmit(NP.Compile(p, c), proto, port, src);
    }
  }

  // A listener in front of pods under one policy admits what the policy's
  // security group does if and only if the policy is not of egress only, whose
  // group is open to all, and lets in the default subnets by rules of its own:
  // the listener counts no rule without a protocol.
  lemma PolicyReachesListener(p: NP.Policy, c: NP.Cluster, cidrs: seq<Cidr>, proto: NP.Protocol, port: nat)
    ensures var rules := NP.Compile(p, c) + Defaults(cidrs);
            ((forall src :: RulesAdmit(GroupOf(rules), proto, port, src) <==> NP.Admits(rules, src, proto, port))
             <==> !(p.ingress == [] && p.types == [NP.Egress]) && forall src :: InSome(cidrs, src) ==> NP.Admitted(p, c, src, proto, port))
  {
    var rules := NP.Compile(p, c) + Defaults(cidrs);
    forall src: Addr
      ensures NP.Admits(rules, src, proto, port) <==> NP.Admitted(p, c, src, proto, port) || InSome(cidrs, src)
      ensures RulesAdmit(GroupOf(rules), proto, port, src)
         <==> NP.Admitted(p, c, src, proto, port) && !(p.ingress == [] && p.types == [NP.Egress])
    {
      NP.CompileAdmits(p, c, src, proto, port);
      NP.AdmitsConcat(NP.Compile(p, c), Defaults(cidrs), src, proto, port);
      DefaultsAdmit(cidrs, proto, port, src);
      DefaultsUncounted(NP.Compile(p, c), cidrs, proto, port, src);
      OwnRulesReach(p, c, proto, port, src);
    }
    if p.ingress == [] && p.types == [NP.Egress] {
      assert NP.Admitted(p, c, 0, proto, port);
      assert !RulesAdmit(GroupOf(rules), proto, port, 0);
    }
  }

  // A policy that denies all traffic: its group still lets the services in,
  // and the listener lets in nothing.
  lemma DenyAllIsNotMatched(p: NP.Policy, c: NP.Cluster, services: Cidr)
    requires p.types == [NP.Ingress] && p.ingress == []
    ensures var rules := NP.Compile(p, c) + Defaults([services]);
            && NP.Admits(rules, services.lo, NP.TCP, 80)
            && forall src :: !RulesAdmit(GroupOf(rules), NP.TCP, 80, src)
  {
    assert NP.RuleAdmits((NP.Compile(p, c) + Defaults([services]))[0], services.lo, NP.TCP, 80);
  }
}
