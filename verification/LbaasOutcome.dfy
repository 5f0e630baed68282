/**
 What a completed reconciliation amounts to: the state equals Octavia's
 resources, matches the spec and the endpoints exactly, and is a fixed point.
 */
module LbaasOutcome {
  import opened Options
  import opened LbaasModel
  import opened LbaasRecovery

  // ---------- lookups ----------

  lemma {:induction false} KeyForFacts(ports: seq<PortSpec>, name: Option<string>)
    ensures KeyFor(ports, name).Some? ==> exists p :: p in ports && p.name == name && KeyOf(p) == KeyFor(ports, name).value
    ensures KeyFor(ports, name).None? ==> forall p :: p in ports ==> p.name != name
  {
    if ports != [] {
      var init := ports[..|ports| - 1];
      assert ports == init + [ports[|ports| - 1]];
      if ports[|ports| - 1].name == name {
        assert ports[|ports| - 1] in ports;
      } else {
        KeyForFacts(init, name);
        if KeyFor(ports, name).Some? {
          var p :| p in init && p.name == name && KeyOf(p) == KeyFor(ports, name).value;
          assert p in ports;
        }
      }
    }
  }

  // With unique keys, two names standing for the same key are the same.
  lemma KeyForInjective(ports: seq<PortSpec>, a: Option<string>, b: Option<string>)
    requires UniquePorts(ports) && KeyFor(ports, a).Some? && KeyFor(ports, a) == KeyFor(ports, b)
    ensures a == b
  {
    KeyForFacts(ports, a);
    KeyForFacts(ports, b);
  }

  lemma {:induction false} PoolNamedFacts(pools: seq<Pool>, k: Key)
    ensures PoolNamed(pools, k).Some? ==> PoolNamed(pools, k).value in pools && PoolNamed(pools, k).value.name == k
    ensures PoolNamed(pools, k).None? ==> forall p :: p in pools ==> p.name != k
  {
    if pools != [] {
      assert pools == pools[..|pools| - 1] + [pools[|pools| - 1]];
      PoolNamedFacts(pools[..|pools| - 1], k);
    }
  }

  // On one load balancer a pool is known by its name.
  lemma PoolNamesUnique(r: Resources, p: Pool, q: Pool)
    requires WellFormed(r) && p in r.pools && q in r.pools && p.name == q.name && p.lbId == q.lbId
    ensures p == q
  {
    assert OnListener(p, r.listeners) && OnListener(q, r.listeners);
  }

  // ---------- the keys added ----------

  predicate Covered(have: seq<Key>, k: Key, cfg: Config) {
    k in have || k.protocol !in cfg.supported || (!cfg.doubleListeners && PortTaken(have, k.port))
  }

  predicate DistinctPorts(keys: seq<Key>) {
    forall i, j :: 0 <= i < j < |keys| ==> keys[i].port != keys[j].port
  }

  lemma CoveredGrows(have: seq<Key>, more: seq<Key>, k: Key, cfg: Config)
    requires Covered(have, k, cfg)
    ensures Covered(have + more, k, cfg)
  {
    if PortTaken(have, k.port) {
      var x :| x in have && x.port == k.port;
      assert x in have + more;
    }
  }

  lemma {:induction false} NewKeysFacts(have: seq<Key>, ports: seq<PortSpec>, cfg: Config)
    ensures forall k :: k in NewKeys(have, ports, cfg) ==> k !in have && InSpec(ports, k) && k.protocol in cfg.supported
    ensures NoDup(NewKeys(have, ports, cfg))
    ensures forall p :: p in ports ==> Covered(have + NewKeys(have, ports, cfg), KeyOf(p), cfg)
  {
    if ports != [] {
      var init := ports[..|ports| - 1];
      var last := ports[|ports| - 1];
      var before := NewKeys(have, init, cfg);
      var keys := NewKeys(have, ports, cfg);
      NewKeysFacts(have, init, cfg);
      assert ports == init + [last];
      assert last in ports;
      forall k | k in keys ensures k !in have && InSpec(ports, k) && k.protocol in cfg.supported {
        if k in before {
          var p :| p in init && KeyOf(p) == k;
          assert p in ports;
        }
      }
      forall p | p in ports ensures Covered(have + keys, KeyOf(p), cfg) {
        if p in init {
          CoveredGrows(have + before, keys[|before|..], KeyOf(p), cfg);
          assert have + before + keys[|before|..] == have + keys;
        } else if !Creates(have + before, KeyOf(last), cfg) {
          assert keys == before;
        } else {
          assert KeyOf(last) in keys;
        }
      }
    }
  }

  lemma {:induction false} NewKeysDistinct(have: seq<Key>, ports: seq<PortSpec>, cfg: Config)
    requires !cfg.doubleListeners && DistinctPorts(have)
    ensures DistinctPorts(have + NewKeys(have, ports, cfg))
  {
    if ports != [] {
      var init := ports[..|ports| - 1];
      var before := NewKeys(have, init, cfg);
      var k := KeyOf(ports[|ports| - 1]);
      NewKeysDistinct(have, init, cfg);
      if Creates(have + before, k, cfg) {
        assert have + NewKeys(have, ports, cfg) == have + before + [k];
        forall i | 0 <= i < |have + before| ensures (have + before)[i].port != k.port {
          assert (have + before)[i] in have + before;
        }
      }
    } else {
      assert have + NewKeys(have, ports, cfg) == have;
    }
  }

  // Without double listeners a new key has the first supported protocol of
  // those listed for its port.
  lemma {:induction false} NewKeysFirst(have: seq<Key>, ports: seq<PortSpec>, cfg: Config)
    requires !cfg.doubleListeners && SortedByProtocol(ports)
    ensures forall k, p :: k in NewKeys(have, ports, cfg) && p in ports && p.port == k.port && p.protocol in cfg.supported ==>
              NotAfter(k.protocol, p.protocol)
  {
    if ports != [] {
      var init, last := ports[..|ports| - 1], ports[|ports| - 1];
      NewKeysFirst(have, init, cfg);
      NewKeysFacts(have, init, cfg);
      assert ports == init + [last];
      forall k, p | k in NewKeys(have, ports, cfg) && p in ports && p.port == k.port && p.protocol in cfg.supported
        ensures NotAfter(k.protocol, p.protocol)
      {
        if k in NewKeys(have, init, cfg) {
          if p !in init { KeyNotAfterLast(ports, k); }
        } else {
          assert p in init ==> Covered(have + NewKeys(have, init, cfg), KeyOf(p), cfg);
        }
      }
    }
  }

  lemma KeyNotAfterLast(ports: seq<PortSpec>, k: Key)
    requires ports != [] && SortedByProtocol(ports) && InSpec(ports[..|ports| - 1], k)
    ensures NotAfter(k.protocol, ports[|ports| - 1].protocol)
  {
    var q :| q in ports[..|ports| - 1] && KeyOf(q) == k;
    var i :| 0 <= i < |ports| - 1 && ports[i] == q;
  }

  lemma {:induction false} NothingNew(have: seq<Key>, ports: seq<PortSpec>, cfg: Config)
    requires forall p :: p in ports ==> Covered(have, KeyOf(p), cfg)
    ensures NewKeys(have, ports, cfg) == []
  {
    if ports != [] {
      assert ports == ports[..|ports| - 1] + [ports[|ports| - 1]];
      NothingNew(have, ports[..|ports| - 1], cfg);
      assert have + [] == have;
      assert ports[|ports| - 1] in ports;
    }
  }

  // What the first ports contribute is never taken back.
  lemma {:induction false} NewKeysPrefix(have: seq<Key>, ports: seq<PortSpec>, i: nat, cfg: Config)
    requires i <= |ports|
    ensures NewKeys(have, ports[..i], cfg) <= NewKeys(have, ports, cfg)
  {
    if i == |ports| {
      assert ports[..i] == ports;
    } else {
      var init := ports[..|ports| - 1];
      NewKeysPrefix(have, init, i, cfg);
      assert init[..i] == ports[..i];
    }
  }

  // ---------- the members added ----------

  lemma {:induction false} MissingFacts(ts: seq<Target>, pools: seq<Pool>, ports: seq<PortSpec>, have: seq<Member>)
    ensures forall w :: w in Missing(ts, pools, ports, have) ==>
              !HasMember(have, w.target.address.ip, w.target.port.port, w.pool.id)
    ensures forall t :: t in ts && IsPod(t.address) && PoolFor(pools, ports, t).Some? ==>
              || HasMember(have, t.address.ip, t.port.port, PoolFor(pools, ports, t).value.id)
              || Wanted(t, PoolFor(pools, ports, t).value) in Missing(ts, pools, ports, have)
  {
    if ts != [] {
      var init := ts[..|ts| - 1];
      MissingFacts(init, pools, ports, have);
      assert ts == init + [ts[|ts| - 1]];
    }
  }

  lemma {:induction false} MissingUnique(ts: seq<Target>, pools: seq<Pool>, ports: seq<PortSpec>, have: seq<Member>)
    requires UniqueTargets(ts)
    ensures UniqueTargets(TargetsOf(Missing(ts, pools, ports, have)))
  {
    if ts != [] {
      var init := ts[..|ts| - 1];
      var last := ts[|ts| - 1];
      MissingUnique(init, pools, ports, have);
      var before := Missing(init, pools, ports, have);
      forall i | 0 <= i < |before|
        ensures !(before[i].target.address.ip == last.address.ip && before[i].target.port == last.port)
      {
        assert before[i] in before;
        var j :| 0 <= j < |init| && init[j] == before[i].target;
        assert ts[j] == before[i].target;
      }
    }
  }

  function TargetsOf(ws: seq<Wanted>): (r: seq<Target>)
    ensures |r| == |ws| && forall i :: 0 <= i < |r| ==> r[i] == ws[i].target
  {
    seq(|ws|, i requires 0 <= i < |ws| => ws[i].target)
  }

  lemma {:induction false} NothingMissing(ts: seq<Target>, pools: seq<Pool>, ports: seq<PortSpec>, have: seq<Member>)
    requires forall t :: t in ts && IsPod(t.address) && PoolFor(pools, ports, t).Some? ==>
               HasMember(have, t.address.ip, t.port.port, PoolFor(pools, ports, t).value.id)
    ensures Missing(ts, pools, ports, have) == []
  {
    if ts != [] {
      assert ts == ts[..|ts| - 1] + [ts[|ts| - 1]];
      assert ts[|ts| - 1] in ts;
      NothingMissing(ts[..|ts| - 1], pools, ports, have);
    }
  }

  // Two members asked for never fall on the same pool, address and port.
  lemma WantedDistinct(c: Ctx, pools: seq<Pool>, ws: seq<Wanted>, i: nat, j: nat)
    requires ValidCtx(c) && ws == Missing(AllTargets(c.subsets), pools, c.spec.ports, KeptMembers(c))
    requires forall p, q :: p in pools && q in pools && p.id == q.id ==> p == q
    requires i < j < |ws|
    ensures !(ws[i].pool.id == ws[j].pool.id && ws[i].target.address.ip == ws[j].target.address.ip
              && ws[i].target.port.port == ws[j].target.port.port)
  {
    MissingUnique(AllTargets(c.subsets), pools, c.spec.ports, KeptMembers(c));
    assert TargetsOf(ws)[i] == ws[i].target && TargetsOf(ws)[j] == ws[j].target;
    assert ws[i] in ws && ws[j] in ws;
    var a, b := ws[i].target.port.name, ws[j].target.port.name;
    KeyForFacts(c.spec.ports, a);
    KeyForFacts(c.spec.ports, b);
    PoolNamedFacts(pools, KeyFor(c.spec.ports, a).value);
    PoolNamedFacts(pools, KeyFor(c.spec.ports, b).value);
    if ws[i].pool.id == ws[j].pool.id {
      KeyForInjective(c.spec.ports, a, b);
    }
  }

  // ---------- a completed run owns all of Octavia's resources ----------

  // The lists of `s` are Octavia's own, in the shape a completed run gives them.
  ghost predicate Completed(c: Ctx, r: Resources, next: nat, s: State) {
    && Standing(c, r, next, s) && Reconciled(c, s)
    && (forall m :: m in s.members ==> m in r.members)
  }

  // The same, before the new members are added.
  ghost predicate Standing(c: Ctx, r: Resources, next: nat, s: State) {
    && Recoverable(c, r, next) && Clean(c, r) && Framed(c, s)
    && s.lb.value in r.lbs
    && (forall l :: l in s.listeners ==> l in r.listeners)
    && (forall p :: p in s.pools ==> p in r.pools)
  }

  lemma SavedBelow(c: Ctx)
    requires ValidCtx(c)
    ensures forall l :: l in c.s0.listeners ==> l.id < c.base
    ensures forall p :: p in c.s0.pools ==> p.id < c.base && p.listenerId < c.base
    ensures forall m :: m in c.s0.members ==> m.id < c.base
    ensures forall l :: l in KeptListeners(c) ==> l in c.s0.listeners
    ensures forall p :: p in KeptPools(c) ==> p in c.s0.pools
    ensures forall m :: m in KeptMembers(c) ==> m in c.s0.members
  {
    KeptFacts(c);
    SavedHangTogether(c);
    var r := ResourcesOf(c.s0);
    assert forall p :: p in c.s0.pools ==> p in r.pools;
    assert forall m :: m in c.s0.members ==> m in r.members;
  }

  lemma NewListenerThere(there: set<Listener>, kept: seq<Listener>, base: nat, keys: seq<Key>, lb: LoadBalancer, listeners: seq<Listener>, l: Listener)
    requires UniqueListeners(there) && NewListeners(kept, base, keys, lb, listeners)
    requires forall x :: x in listeners ==> x in there
    requires l in there && l.lbId == lb.id && l.key in keys
    ensures l in listeners
  {
    var i :| 0 <= i < |keys| && keys[i] == l.key;
    assert listeners[|kept| + i] in there;
  }

  lemma CompletedLb(c: Ctx, r: Resources, next: nat, s: State)
    requires Standing(c, r, next, s)
    ensures r.lbs == {s.lb.value}
  {
    hide ValidCtx, KnownListeners, KnownPools, KnownMembers, HoldsKept, SameLb, NewListeners, NewPools, KeptListeners, KeptPools, KeptMembers;
    assert forall b :: b in r.lbs ==> b == s.lb.value;
  }

  lemma CompletedListeners(c: Ctx, r: Resources, next: nat, s: State)
    requires Standing(c, r, next, s)
    ensures r.lbs == {s.lb.value}
    ensures r.listeners == set l | l in s.listeners
  {
    SavedBelow(c);
    CompletedLb(c, r, next, s);
    hide ValidCtx, KnownPools, KnownMembers, HoldsKept, SameLb, NewPools, AddedKeys, KeptListeners, KeptPools, KeptMembers;
    forall l | l in r.listeners ensures l in s.listeners {
      hide NewListeners;
      if l in KeptListeners(c) {
        KeptAreFirst(KeptListeners(c), c.base, AddedKeys(c), s.lb.value, s.listeners, l);
      } else {
        assert CreatedListener(c, r.lbs, l);
        NewListenerThere(r.listeners, KeptListeners(c), c.base, AddedKeys(c), s.lb.value, s.listeners, l);
      }
    }
  }

  lemma KeptAreFirst(kept: seq<Listener>, base: nat, keys: seq<Key>, lb: LoadBalancer, listeners: seq<Listener>, l: Listener)
    requires NewListeners(kept, base, keys, lb, listeners) && l in kept
    ensures l in listeners
  {
    PrefixMember(kept, listeners, l);
  }

  lemma PrefixMember<T(!new)>(kept: seq<T>, all: seq<T>, x: T)
    requires kept <= all && x in kept
    ensures x in all
  {
    var i :| 0 <= i < |kept| && kept[i] == x;
    assert all[i] == x;
  }

  lemma PoolOfNew(oldLs: seq<Listener>, base: nat, keys: seq<Key>, lb: LoadBalancer, ls: seq<Listener>,
                  oldPs: seq<Pool>, ps: seq<Pool>, l: Listener) returns (p: Pool)
    requires NewListeners(oldLs, base, keys, lb, ls) && NewPools(oldPs, base, |oldLs|, ls, ps)
    requires l in ls && l.id >= base && forall x :: x in oldLs ==> x.id < base
    ensures p in ps && OwnPool(p, l)
  {
    var i :| 0 <= i < |ls| && ls[i] == l;
    assert i >= |oldLs| by {
      forall j | 0 <= j < |oldLs| ensures ls[j].id < base { assert ls[j] == oldLs[j]; }
    }
    p := ps[|oldPs| + i - |oldLs|];
  }

  lemma CompletedPools(c: Ctx, r: Resources, next: nat, s: State)
    requires Standing(c, r, next, s)
    ensures r.pools == set p | p in s.pools
  {
    SavedBelow(c);
    CompletedListeners(c, r, next, s);
    forall p | p in r.pools ensures p in s.pools { PoolIsListed(c, r, next, s, p); }
  }

  lemma KeptPoolsFirst(c: Ctx, s: State)
    requires Framed(c, s)
    ensures KeptPools(c) <= s.pools
  {
  }

  lemma PoolIsListed(c: Ctx, r: Resources, next: nat, s: State, p: Pool)
    requires Standing(c, r, next, s) && p in r.pools && r.listeners == set l | l in s.listeners
    ensures p in s.pools
  {
    SavedBelow(c);
    assert OnListener(p, r.listeners);
    hide NewListeners, NewPools, AddedKeys, KeptListeners, KeptPools;
    if p in KeptPools(c) {
      KeptPoolsFirst(c, s);
      PrefixMember(KeptPools(c), s.pools, p);
    } else {
      assert CreatedPool(c, p);
      var l :| l in r.listeners && l.id == p.listenerId && l.key == p.name && l.lbId == p.lbId;
      var q := PoolOfNew(KeptListeners(c), c.base, AddedKeys(c), s.lb.value, s.listeners, KeptPools(c), s.pools, l);
      assert q in r.pools;
    }
  }

  lemma SamePool(r: Resources, lb: LoadBalancer, pools: seq<Pool>, ports: seq<PortSpec>, t: Target, p: Pool)
    requires WellFormed(r) && r.lbs == {lb} && (set x | x in pools) == r.pools
    requires p in pools && KeyFor(ports, t.port.name) == Some(p.name)
    ensures PoolFor(pools, ports, t) == Some(p)
  {
    PoolNamedFacts(pools, p.name);
    var q := PoolNamed(pools, p.name).value;
    assert q in r.pools && p in r.pools;
    assert OnListener(p, r.listeners) && OnListener(q, r.listeners);
    assert forall l :: l in r.listeners ==> OnLb(l, r.lbs);
    PoolNamesUnique(r, p, q);
  }

  // Target `t` of pool `p` has its member in the list.
  lemma TargetServed(r: Resources, kept: seq<Member>, base: nat, ts: seq<Target>, pools: seq<Pool>, ports: seq<PortSpec>,
                     members: seq<Member>, t: Target, p: Pool) returns (m: Member)
    requires NewMembers(kept, base, Missing(ts, pools, ports, kept), members)
    requires t in ts && IsPod(t.address) && PoolFor(pools, ports, t) == Some(p)
    ensures m in members && m.ip == t.address.ip && m.port == t.port.port && m.poolId == p.id
  {
    var ws := Missing(ts, pools, ports, kept);
    MissingFacts(ts, pools, ports, kept);
    if HasMember(kept, t.address.ip, t.port.port, p.id) {
      m :| m in kept && m.ip == t.address.ip && m.port == t.port.port && m.poolId == p.id;
      var i :| 0 <= i < |kept| && kept[i] == m;
      assert members[i] == m;
    } else {
      var i :| 0 <= i < |ws| && ws[i] == Wanted(t, p);
      m := members[|kept| + i];
    }
  }

  lemma CompletedMembers(c: Ctx, r: Resources, next: nat, s: State)
    requires Completed(c, r, next, s)
    ensures r.members == set m | m in s.members
  {
    var kept := KeptMembers(c);
    SavedBelow(c);
    CompletedListeners(c, r, next, s);
    CompletedPools(c, r, next, s);
    forall m | m in r.members ensures m in s.members {
      if m in kept {
        var i :| 0 <= i < |kept| && kept[i] == m;
        assert s.members[i] == m;
      } else {
        assert CreatedMember(c, r.pools, m);
        var t, p :| p in r.pools && Feeds(c, t, p) && Serves(m, Wanted(t, p));
        SamePool(r, s.lb.value, s.pools, c.spec.ports, t, p);
        var x := TargetServed(r, kept, c.base, AllTargets(c.subsets), s.pools, c.spec.ports, s.members, t, p);
        assert x in r.members;
        assert x == m;
      }
    }
  }

  // The main step: a completed run leaves a state equal to Octavia's
  // resources, without duplicates, on which the next one can start.
  lemma CompletedIsConsistent(c: Ctx, r: Resources, next: nat, s: State)
    requires Completed(c, r, next, s)
    ensures ResourcesOf(s) == r
    ensures WellFormedState(s)
  {
    CompletedListeners(c, r, next, s);
    CompletedPools(c, r, next, s);
    CompletedMembers(c, r, next, s);
    assert ResourcesOf(s) == r;
    CompletedNoDup(c, r, next, s);
    CompletedNames(c, s);
  }

  lemma CompletedNames(c: Ctx, s: State)
    requires ValidCtx(c) && Reconciled(c, s)
    ensures forall m :: m in s.members ==> WellNamed(m)
  {
    SavedBelow(c);
    assert forall m :: m in KeptMembers(c) ==> WellNamed(m);
    var ws := MissingFrom(c, s.pools);
    assert forall w :: w in ws ==> ValidRef(w.target.address.ref.value);
    NewMemberNames(KeptMembers(c), c.base, ws, s.members);
  }

  lemma NewMemberNames(kept: seq<Member>, base: nat, ws: seq<Wanted>, members: seq<Member>)
    requires NewMembers(kept, base, ws, members)
    requires forall m :: m in kept ==> WellNamed(m)
    requires forall w :: w in ws ==> w.target.address.ref.Some? && ValidRef(w.target.address.ref.value)
    ensures forall m :: m in members ==> WellNamed(m)
  {
    forall i | 0 <= i < |members| ensures WellNamed(members[i]) {
      if i < |kept| {
        assert members[i] == kept[i];
      } else {
        assert ws[i - |kept|] in ws;
      }
    }
  }

  lemma KeptNoDup(c: Ctx)
    requires ValidCtx(c)
    ensures NoDup(KeptListeners(c)) && NoDup(KeptPools(c)) && NoDup(KeptMembers(c))
  {
    ExceptNoDup(c.s0.pools, PoolId, UnusedPools(c));
    ExceptNoDup(c.s0.listeners, ListenerId, UnusedListeners(c));
    ExceptNoDup(c.s0.members, MemberId, UnusedMembers(c));
    ExceptNoDup(M1(c), MemberPool, UnusedPools(c));
  }

  lemma StandingNoDup(c: Ctx, r: Resources, next: nat, s: State)
    requires Standing(c, r, next, s)
    ensures NoDup(s.listeners) && NoDup(s.pools)
  {
    SavedBelow(c);
    KeptNoDup(c);
    NewKeysFacts(Keys(KeptListeners(c)), SortByProtocol(c.spec.ports), c.cfg);
    ListenersNoDup(KeptListeners(c), c.base, AddedKeys(c), s.lb.value, s.listeners);
    PoolsNoDup(KeptPools(c), c.base, |KeptListeners(c)|, s.listeners, s.pools);
  }

  // Listeners and pools alone already make a well-formed state.
  lemma StandingIsWellFormed(c: Ctx, r: Resources, next: nat, s: State)
    requires Standing(c, r, next, s)
    ensures WellFormedState(s.(members := []))
  {
    CompletedListeners(c, r, next, s);
    CompletedPools(c, r, next, s);
    StandingNoDup(c, r, next, s);
    assert ResourcesOf(s.(members := [])) == r.(members := {});
  }

  lemma CompletedNoDup(c: Ctx, r: Resources, next: nat, s: State)
    requires Completed(c, r, next, s) && ResourcesOf(s) == r
    ensures NoDup(s.listeners) && NoDup(s.pools) && NoDup(s.members)
  {
    SavedBelow(c);
    KeptNoDup(c);
    StandingNoDup(c, r, next, s);
    var ws := MissingFrom(c, s.pools);
    assert forall p, q :: p in s.pools && q in s.pools && p.id == q.id ==> p == q by {
      assert forall p :: p in s.pools ==> p in r.pools;
    }
    forall i, j | 0 <= i < j < |ws|
      ensures !(ws[i].pool.id == ws[j].pool.id && ws[i].target.address.ip == ws[j].target.address.ip
                && ws[i].target.port.port == ws[j].target.port.port)
    {
      WantedDistinct(c, s.pools, ws, i, j);
    }
    MembersNoDup(KeptMembers(c), c.base, ws, s.members);
  }

  lemma ListenersNoDup(kept: seq<Listener>, base: nat, keys: seq<Key>, lb: LoadBalancer, ls: seq<Listener>)
    requires NewListeners(kept, base, keys, lb, ls) && NoDup(kept) && NoDup(keys)
    requires forall l :: l in kept ==> l.id < base
    ensures NoDup(ls)
  {
    forall i, j | 0 <= i < j < |ls| ensures ls[i] != ls[j] {
      if i < |kept| {
        assert ls[i] == kept[i] && kept[i] in kept;
        assert j < |kept| ==> ls[j] == kept[j];
      }
    }
  }

  lemma PoolsNoDup(kept: seq<Pool>, base: nat, k: nat, ls: seq<Listener>, ps: seq<Pool>)
    requires NewPools(kept, base, k, ls, ps) && NoDup(kept) && NoDup(ls)
    requires forall p :: p in kept ==> p.id < base
    requires forall a, b :: a in ls && b in ls && a.id == b.id ==> a == b
    ensures NoDup(ps)
  {
    forall i, j | 0 <= i < j < |ps| ensures ps[i] != ps[j] {
      if i < |kept| {
        assert ps[i] == kept[i] && kept[i] in kept;
        assert j < |kept| ==> ps[j] == kept[j];
      } else {
        var a, b := ls[k + i - |kept|], ls[k + j - |kept|];
        assert OwnPool(ps[i], a) && OwnPool(ps[j], b);
        assert a in ls && b in ls && a != b;
      }
    }
  }

  lemma MembersNoDup(kept: seq<Member>, base: nat, ws: seq<Wanted>, ms: seq<Member>)
    requires NewMembers(kept, base, ws, ms) && NoDup(kept)
    requires forall m :: m in kept ==> m.id < base
    requires forall i, j :: 0 <= i < j < |ws| ==>
               !(ws[i].pool.id == ws[j].pool.id && ws[i].target.address.ip == ws[j].target.address.ip
                 && ws[i].target.port.port == ws[j].target.port.port)
    ensures NoDup(ms)
  {
    forall i, j | 0 <= i < j < |ms| ensures ms[i] != ms[j] {
      if i < |kept| {
        assert ms[i] == kept[i] && kept[i] in kept;
        assert j < |kept| ==> ms[j] == kept[j];
      } else {
        assert Serves(ms[i], ws[i - |kept|]) && Serves(ms[j], ws[j - |kept|]);
      }
    }
  }

  // ---------- exactly what the spec and the endpoints ask for ----------

  // The member of `s` that serves target `t`.
  ghost predicate MemberFor(c: Ctx, s: State, t: Target, m: Member) {
    && m in s.members && m.ip == t.address.ip && m.port == t.port.port
    && PodName(m.name) == Some(RefName(t.address))
    && exists p :: p in s.pools && p.id == m.poolId && KeyFor(c.spec.ports, t.port.name) == Some(p.name)
  }

  ghost predicate Listens(s: State, k: Key) { exists l :: l in s.listeners && l.key == k }

  ghost predicate AllPods(subsets: seq<Subset>) {
    HasPods(subsets) && forall t :: t in AllTargets(subsets) ==> IsPod(t.address)
  }

  // Octavia accepted the protocols of the listeners it already has.
  ghost predicate Supported(s: State, cfg: Config) {
    forall l :: l in s.listeners ==> l.key.protocol in cfg.supported
  }

  // Every listener is in the spec.
  lemma ListenersInSpec(c: Ctx, s: State)
    requires ValidCtx(c) && Reconciled(c, s)
    ensures forall l :: l in s.listeners ==> InSpec(c.spec.ports, l.key)
  {
    var kept := KeptListeners(c);
    NewKeysFacts(Keys(kept), SortByProtocol(c.spec.ports), c.cfg);
    SortedPortsMembers(c.spec.ports);
    forall i | 0 <= i < |s.listeners| ensures InSpec(c.spec.ports, s.listeners[i].key) {
      if i < |kept| {
        assert s.listeners[i] == kept[i] && kept[i] in L1(c);
        var p := KeptListenerLinked(c, kept[i]);
      } else {
        assert AddedKeys(c)[i - |kept|] in AddedKeys(c);
        var q :| q in SortByProtocol(c.spec.ports) && KeyOf(q) == s.listeners[i].key;
        assert q in c.spec.ports;
      }
    }
  }

  // Every listener has its pool.
  lemma ListenerHasPool(c: Ctx, s: State, l: Listener) returns (p: Pool)
    requires ValidCtx(c) && Reconciled(c, s) && l in s.listeners
    ensures p in s.pools && OwnPool(p, l)
  {
    var kept := KeptListeners(c);
    var i :| 0 <= i < |s.listeners| && s.listeners[i] == l;
    if i < |kept| {
      assert l == kept[i] && kept[i] in L1(c);
      p := KeptListenerLinked(c, l);
      var j :| 0 <= j < |KeptPools(c)| && KeptPools(c)[j] == p;
      assert s.pools[j] == p;
    } else {
      p := s.pools[|KeptPools(c)| + i - |kept|];
    }
  }

  lemma SameTarget(ts: seq<Target>, t: Target, u: Target)
    requires UniqueTargets(ts) && t in ts && u in ts && t.address.ip == u.address.ip && t.port == u.port
    ensures t == u
  {
    var i :| 0 <= i < |ts| && ts[i] == t;
    var j :| 0 <= j < |ts| && ts[j] == u;
  }

  lemma SpecCovered(c: Ctx, s: State, p: PortSpec)
    requires ValidCtx(c) && Reconciled(c, s) && p in c.spec.ports
    ensures Covered(Keys(s.listeners), KeyOf(p), c.cfg)
  {
    var kept := KeptListeners(c);
    NewKeysFacts(Keys(kept), SortByProtocol(c.spec.ports), c.cfg);
    SortedPortsMembers(c.spec.ports);
    StateKeys(c, s);
  }

  lemma KeysOfNew(kept: seq<Listener>, base: nat, keys: seq<Key>, lb: LoadBalancer, ls: seq<Listener>)
    requires NewListeners(kept, base, keys, lb, ls)
    ensures Keys(ls) == Keys(kept) + keys
  {
    forall i | 0 <= i < |ls| ensures Keys(ls)[i] == (Keys(kept) + keys)[i] {
      if i < |kept| { assert ls[i] == kept[i]; }
    }
  }

  lemma StateKeys(c: Ctx, s: State)
    requires Reconciled(c, s)
    ensures Keys(s.listeners) == Keys(KeptListeners(c)) + AddedKeys(c)
  {
    KeysOfNew(KeptListeners(c), c.base, AddedKeys(c), s.lb.value, s.listeners);
  }

  // With double listeners: the listeners are exactly the (protocol, port)
  // pairs of the spec that Octavia supports.
  lemma ListenersExact(c: Ctx, s: State)
    requires ValidCtx(c) && Reconciled(c, s) && c.cfg.doubleListeners && Supported(c.s0, c.cfg)
    ensures forall k :: Listens(s, k) <==> InSpec(c.spec.ports, k) && k.protocol in c.cfg.supported
    ensures Supported(s, c.cfg)
  {
    ListenersInSpec(c, s);
    StateKeys(c, s);
    NewKeysFacts(Keys(KeptListeners(c)), SortByProtocol(c.spec.ports), c.cfg);
    SavedBelow(c);
    forall l | l in s.listeners ensures l.key.protocol in c.cfg.supported {
      var i :| 0 <= i < |s.listeners| && s.listeners[i] == l;
      if i < |KeptListeners(c)| {
        assert s.listeners[i] == KeptListeners(c)[i];
      } else {
        assert AddedKeys(c)[i - |KeptListeners(c)|] in AddedKeys(c);
      }
    }
    forall k | InSpec(c.spec.ports, k) && k.protocol in c.cfg.supported ensures Listens(s, k) {
      var p :| p in c.spec.ports && KeyOf(p) == k;
      SpecCovered(c, s, p);
      var i :| 0 <= i < |Keys(s.listeners)| && Keys(s.listeners)[i] == k;
      assert s.listeners[i] in s.listeners;
    }
  }

  // Without double listeners: no two listeners share a port number, and every
  // supported spec port number has a listener.
  lemma ListenersSingle(c: Ctx, s: State)
    requires ValidCtx(c) && Reconciled(c, s) && !c.cfg.doubleListeners
    requires DistinctPorts(Keys(c.s0.listeners))
    ensures DistinctPorts(Keys(s.listeners))
    ensures forall p :: p in c.spec.ports && p.protocol in c.cfg.supported ==> PortTaken(Keys(s.listeners), p.port)
  {
    StateKeys(c, s);
    KeptNoDup(c);
    SavedBelow(c);
    var kept := KeptListeners(c);
    forall i, j | 0 <= i < j < |kept| ensures Keys(kept)[i].port != Keys(kept)[j].port {
      assert kept[i] in c.s0.listeners && kept[j] in c.s0.listeners;
      var a :| 0 <= a < |c.s0.listeners| && c.s0.listeners[a] == kept[i];
      var b :| 0 <= b < |c.s0.listeners| && c.s0.listeners[b] == kept[j];
      assert a != b;
      assert Keys(c.s0.listeners)[a].port != Keys(c.s0.listeners)[b].port;
    }
    NewKeysDistinct(Keys(kept), SortByProtocol(c.spec.ports), c.cfg);
    forall p | p in c.spec.ports && p.protocol in c.cfg.supported ensures PortTaken(Keys(s.listeners), p.port) {
      SpecCovered(c, s, p);
    }
  }

  // The spec has the port under the protocol, and the protocol is supported.
  ghost predicate Asks(c: Ctx, protocol: Protocol, port: int) {
    protocol in c.cfg.supported && exists p :: p in c.spec.ports && p.protocol == protocol && p.port == port
  }

  lemma ListenerIsNew(c: Ctx, s: State, l: Listener)
    requires Reconciled(c, s) && l in s.listeners && l !in KeptListeners(c)
    ensures l.key in AddedKeys(c)
  {
    hide KeptListeners, AddedKeys, NewPools, NewMembers, SameLb, MissingFrom;
    var kept := KeptListeners(c);
    var i :| 0 <= i < |s.listeners| && s.listeners[i] == l;
    assert forall j :: 0 <= j < |kept| ==> kept[j] in kept && s.listeners[j] == kept[j];
    assert i >= |kept| && AddedKeys(c)[i - |kept|] in AddedKeys(c);
  }

  lemma NewListenerFirst(c: Ctx, k: Key)
    requires !c.cfg.doubleListeners && k in AddedKeys(c)
    ensures Asks(c, k.protocol, k.port)
    ensures forall protocol :: Asks(c, protocol, k.port) ==> NotAfter(k.protocol, protocol)
  {
    hide SortByProtocol, KeptListeners, NewKeys, SortedByProtocol, NotAfter;
    var have, sorted := Keys(KeptListeners(c)), SortByProtocol(c.spec.ports);
    SortedPorts(c.spec.ports);
    SortedPortsMembers(c.spec.ports);
    NewKeysFirst(have, sorted, c.cfg);
    NewKeysFacts(have, sorted, c.cfg);
    assert InSpec(sorted, k);
  }

  // Without double listeners: on a port number that no kept listener has,
  // there is a listener if and only if the spec asks for one, for SCTP if that
  // is asked for, else for TCP, else for UDP.
  lemma SharedPortProtocol(c: Ctx, s: State, port: int)
    requires ValidCtx(c) && Reconciled(c, s) && !c.cfg.doubleListeners
    requires forall l :: l in KeptListeners(c) ==> l.key.port != port
    ensures (exists l :: l in s.listeners && l.key.port == port) <==> exists protocol :: Asks(c, protocol, port)
    ensures forall l :: l in s.listeners && l.key.port == port ==>
              l.key.protocol == if Asks(c, SCTP, port) then SCTP else if Asks(c, TCP, port) then TCP else UDP
  {
    hide ValidCtx, Reconciled, KeptListeners, AddedKeys;
    forall l | l in s.listeners && l.key.port == port
      ensures Asks(c, l.key.protocol, port) && forall protocol :: Asks(c, protocol, port) ==> NotAfter(l.key.protocol, protocol)
    {
      hide Asks, NotAfter;
      ListenerIsNew(c, s, l);
      NewListenerFirst(c, l.key);
    }
    if protocol :| Asks(c, protocol, port) {
      var p :| p in c.spec.ports && p.protocol == protocol && p.port == port;
      SpecCovered(c, s, p);
      var i :| 0 <= i < |s.listeners| && Keys(s.listeners)[i].port == port;
      assert s.listeners[i] in s.listeners;
    }
  }

  // Every member serves a target of the endpoints.
  lemma MembersWanted(c: Ctx, s: State, m: Member)
    requires ValidCtx(c) && Reconciled(c, s) && HasPods(c.subsets) && m in s.members
    ensures exists t :: t in AllTargets(c.subsets) && MemberFor(c, s, t, m)
  {
    var kept := KeptMembers(c);
    var ws := MissingFrom(c, s.pools);
    var i :| 0 <= i < |s.members| && s.members[i] == m;
    if i < |kept| {
      assert m == kept[i] && m in M2(c);
      KeptFacts(c);
      var q := KeptMemberLinked(c, m);
      assert m.id !in UnusedMembers(c) && Targeted(c, m);
      var t, p :| t in AllTargets(c.subsets) && p in c.s0.pools && p.id == m.poolId
        && KeyFor(c.spec.ports, t.port.name) == Some(p.name)
        && t.address.ip == m.ip && t.port.port == m.port && PodName(m.name) == Some(RefName(t.address));
      assert p == q by { assert p in ResourcesOf(c.s0).pools && q in ResourcesOf(c.s0).pools; }
      var j :| 0 <= j < |KeptPools(c)| && KeptPools(c)[j] == p;
      assert s.pools[j] == p;
      assert MemberFor(c, s, t, m);
    } else {
      var w := ws[i - |kept|];
      assert Serves(m, w) && w in ws;
      PodNameRoundTrip(w.target.address.ref.value, w.target.port.port);
      PoolNamedFacts(s.pools, KeyFor(c.spec.ports, w.target.port.name).value);
      assert MemberFor(c, s, w.target, m);
    }
  }

  // Every pod-backed target whose port has a listener has its member.
  lemma TargetsServed(c: Ctx, s: State, t: Target)
    requires ValidCtx(c) && Reconciled(c, s) && WellFormedState(s) && AllPods(c.subsets)
    requires t in AllTargets(c.subsets) && KeyFor(c.spec.ports, t.port.name).Some?
    requires Listens(s, KeyFor(c.spec.ports, t.port.name).value)
    ensures exists m :: MemberFor(c, s, t, m)
  {
    var r := ResourcesOf(s);
    var l :| l in s.listeners && l.key == KeyFor(c.spec.ports, t.port.name).value;
    var p := ListenerHasPool(c, s, l);
    SamePool(r, s.lb.value, s.pools, c.spec.ports, t, p);
    var m := TargetServed(r, KeptMembers(c), c.base, AllTargets(c.subsets), s.pools, c.spec.ports, s.members, t, p);
    MembersWanted(c, s, m);
    var u :| u in AllTargets(c.subsets) && MemberFor(c, s, u, m);
    MemberOfPool(c, s, t, u, p, m);
  }

  lemma MemberOfPool(c: Ctx, s: State, t: Target, u: Target, p: Pool, m: Member)
    requires ValidCtx(c) && WellFormedState(s)
    requires t in AllTargets(c.subsets) && u in AllTargets(c.subsets) && MemberFor(c, s, u, m)
    requires p in s.pools && p.id == m.poolId && KeyFor(c.spec.ports, t.port.name) == Some(p.name)
    requires m.ip == t.address.ip && m.port == t.port.port
    ensures MemberFor(c, s, t, m)
  {
    var q :| q in s.pools && q.id == m.poolId && KeyFor(c.spec.ports, u.port.name) == Some(q.name);
    assert q in ResourcesOf(s).pools && p in ResourcesOf(s).pools;
    KeyForInjective(c.spec.ports, u.port.name, t.port.name);
    SameTarget(AllTargets(c.subsets), t, u);
  }

  // The members are exactly the endpoint targets, one each.
  lemma MembersExact(c: Ctx, s: State)
    requires ValidCtx(c) && Reconciled(c, s) && WellFormedState(s) && AllPods(c.subsets)
    requires c.cfg.doubleListeners && Supported(c.s0, c.cfg)
    ensures forall t :: t in AllTargets(c.subsets) ==>
              ((exists m :: MemberFor(c, s, t, m)) <==>
               KeyFor(c.spec.ports, t.port.name).Some? && KeyFor(c.spec.ports, t.port.name).value.protocol in c.cfg.supported)
    ensures forall m :: m in s.members ==> exists t :: t in AllTargets(c.subsets) && MemberFor(c, s, t, m)
    ensures forall t, m, n :: MemberFor(c, s, t, m) && MemberFor(c, s, t, n) ==> m == n
  {
    ListenersExact(c, s);
    forall m | m in s.members ensures exists t :: t in AllTargets(c.subsets) && MemberFor(c, s, t, m) {
      MembersWanted(c, s, m);
    }
    forall t | t in AllTargets(c.subsets)
      ensures (exists m :: MemberFor(c, s, t, m)) <==>
              KeyFor(c.spec.ports, t.port.name).Some? && KeyFor(c.spec.ports, t.port.name).value.protocol in c.cfg.supported
    {
      KeyForFacts(c.spec.ports, t.port.name);
      if KeyFor(c.spec.ports, t.port.name).Some? && KeyFor(c.spec.ports, t.port.name).value.protocol in c.cfg.supported {
        TargetsServed(c, s, t);
      }
      if m :| MemberFor(c, s, t, m) {
        var p :| p in s.pools && p.id == m.poolId && KeyFor(c.spec.ports, t.port.name) == Some(p.name);
        assert OnListener(p, ResourcesOf(s).listeners) by { assert p in ResourcesOf(s).pools; }
        var l :| l in ResourcesOf(s).listeners && l.key == p.name;
        assert Listens(s, l.key);
      }
    }
    forall t, m, n | MemberFor(c, s, t, m) && MemberFor(c, s, t, n) ensures m == n {
      MemberForUnique(c, s, t, m, n);
    }
  }

  lemma MemberForUnique(c: Ctx, s: State, t: Target, m: Member, n: Member)
    requires ValidCtx(c) && Reconciled(c, s) && WellFormedState(s)
    requires MemberFor(c, s, t, m) && MemberFor(c, s, t, n)
    ensures m == n
  {
    var r := ResourcesOf(s);
    var p :| p in s.pools && p.id == m.poolId && KeyFor(c.spec.ports, t.port.name) == Some(p.name);
    var q :| q in s.pools && q.id == n.poolId && KeyFor(c.spec.ports, t.port.name) == Some(q.name);
    assert p in r.pools && q in r.pools && m in r.members && n in r.members;
    SamePool(r, s.lb.value, s.pools, c.spec.ports, t, p);
    SamePool(r, s.lb.value, s.pools, c.spec.ports, t, q);
  }

  // ---------- a second run finds nothing to do ----------

  // Whether a run reports a change.
  ghost predicate Work(c: Ctx, s: State) {
    || !SameLb(c)
    || UnusedMembers(c) != {} || UnusedPools(c) != {} || UnusedListeners(c) != {}
    || AddedKeys(c) != [] || MissingFrom(c, s.pools) != []
  }

  // Starting again from the result with the same input: everything is kept,
  // nothing is missing, no change is reported.
  lemma SecondRunIdle(c: Ctx, s: State, c': Ctx)
    requires ValidCtx(c) && Reconciled(c, s) && WellFormedState(s)
    requires c' == c.(s0 := s, base := c'.base) && Below(ResourcesOf(s), c'.base)
    ensures SameLb(c') && KeptListeners(c') == s.listeners && KeptPools(c') == s.pools && KeptMembers(c') == s.members
    ensures forall s2 :: Reconciled(c', s2) ==> s2 == s && !Work(c', s2)
  {
    SecondRunPools(c, s, c');
    SecondRunListeners(c, s, c');
    SecondRunMembers(c, s, c');
    SecondRunAddsNone(c, s, c');
    forall s2 | Reconciled(c', s2) ensures s2 == s && !Work(c', s2) {
      IdleResult(c', s, s2);
    }
  }

  lemma IdleResult(c: Ctx, s: State, s2: State)
    requires Reconciled(c, s2) && SameLb(c) && c.s0.lb == s.lb
    requires KeptListeners(c) == s.listeners && KeptPools(c) == s.pools && KeptMembers(c) == s.members
    requires AddedKeys(c) == [] && MissingFrom(c, s.pools) == []
    ensures s2 == s
  {
    assert s2.listeners == s.listeners;
    assert s2.pools == s.pools;
    assert s2.members == s.members;
  }

  lemma SecondRunPools(c: Ctx, s: State, c': Ctx)
    requires ValidCtx(c) && Reconciled(c, s) && WellFormedState(s)
    requires c' == c.(s0 := s, base := c'.base) && Below(ResourcesOf(s), c'.base)
    ensures UnusedPools(c') == {} && P1(c') == s.pools
  {
    ListenersInSpec(c, s);
    forall p | p in s.pools ensures InSpec(c.spec.ports, p.name) {
      assert p in ResourcesOf(s).pools;
      assert OnListener(p, ResourcesOf(s).listeners);
    }
    ExceptAll(s.pools, PoolId, UnusedPools(c'));
  }

  lemma SecondRunListeners(c: Ctx, s: State, c': Ctx)
    requires ValidCtx(c) && Reconciled(c, s) && WellFormedState(s)
    requires c' == c.(s0 := s, base := c'.base) && Below(ResourcesOf(s), c'.base)
    ensures UnusedListeners(c') == {} && L1(c') == s.listeners
  {
    SecondRunPools(c, s, c');
    forall l | l in s.listeners ensures exists p :: p in s.pools && p.listenerId == l.id {
      var p := ListenerHasPool(c, s, l);
    }
    ExceptAll(s.listeners, ListenerId, UnusedListeners(c'));
  }

  lemma SecondRunMembers(c: Ctx, s: State, c': Ctx)
    requires ValidCtx(c) && Reconciled(c, s) && WellFormedState(s)
    requires c' == c.(s0 := s, base := c'.base) && Below(ResourcesOf(s), c'.base)
    ensures UnusedMembers(c') == {} && M1(c') == s.members && M2(c') == s.members
  {
    SecondRunPools(c, s, c');
    if HasPods(c.subsets) {
      forall m | m in s.members ensures Targeted(c', m) {
        MembersWanted(c, s, m);
      }
    }
    ExceptAll(s.members, MemberId, UnusedMembers(c'));
    ExceptAll(s.members, MemberPool, UnusedPools(c'));
  }

  lemma SecondRunAddsNone(c: Ctx, s: State, c': Ctx)
    requires ValidCtx(c) && Reconciled(c, s) && WellFormedState(s)
    requires c' == c.(s0 := s, base := c'.base) && Below(ResourcesOf(s), c'.base)
    ensures AddedKeys(c') == [] && MissingFrom(c', s.pools) == []
  {
    SecondRunListeners(c, s, c');
    SecondRunMembers(c, s, c');
    SortedPortsMembers(c.spec.ports);
    forall p | p in SortByProtocol(c.spec.ports) ensures Covered(Keys(s.listeners), KeyOf(p), c.cfg) {
      SpecCovered(c, s, p);
    }
    NothingNew(Keys(s.listeners), SortByProtocol(c.spec.ports), c.cfg);
    if HasPods(c.subsets) {
      forall t | t in AllTargets(c.subsets) && IsPod(t.address) && PoolFor(s.pools, c.spec.ports, t).Some?
        ensures HasMember(s.members, t.address.ip, t.port.port, PoolFor(s.pools, c.spec.ports, t).value.id)
      {
        var m := TargetServed(ResourcesOf(s), KeptMembers(c), c.base, AllTargets(c.subsets), s.pools, c.spec.ports, s.members,
                              t, PoolFor(s.pools, c.spec.ports, t).value);
      }
      NothingMissing(AllTargets(c.subsets), s.pools, c.spec.ports, s.members);
    }
  }

  // ---------- every run that completes ends alike ----------

  // Pools that differ at most in ids given out since `base`.
  ghost predicate AlikePools(ps: seq<Pool>, qs: seq<Pool>, base: nat) {
    && |ps| == |qs|
    && forall i :: 0 <= i < |ps| ==> ps[i].name == qs[i].name && (ps[i] == qs[i] || (ps[i].id >= base && qs[i].id >= base))
  }

  // The same place in two lists of pools.
  ghost predicate SamePlace(ps: seq<Pool>, qs: seq<Pool>, p: nat, q: nat) {
    exists i :: 0 <= i < |ps| && i < |qs| && ps[i].id == p && qs[i].id == q
  }

  lemma {:induction false} PoolNamedAlike(ps: seq<Pool>, qs: seq<Pool>, base: nat, k: Key)
    requires AlikePools(ps, qs, base)
    ensures PoolNamed(ps, k).Some? <==> PoolNamed(qs, k).Some?
    ensures PoolNamed(ps, k).Some? ==>
              var p, q := PoolNamed(ps, k).value, PoolNamed(qs, k).value;
              SamePlace(ps, qs, p.id, q.id) && (p == q || (p.id >= base && q.id >= base))
  {
    if ps != [] {
      var n := |ps| - 1;
      if ps[n].name == k {
        assert SamePlace(ps, qs, ps[n].id, qs[n].id);
      } else {
        PoolNamedAlike(ps[..n], qs[..n], base, k);
        if PoolNamed(ps[..n], k).Some? {
          var i :| 0 <= i < n && ps[..n][i].id == PoolNamed(ps[..n], k).value.id && qs[..n][i].id == PoolNamed(qs[..n], k).value.id;
          assert ps[i].id == PoolNamed(ps, k).value.id && qs[i].id == PoolNamed(qs, k).value.id;
        }
      }
    }
  }

  // The same members are missing, in the same places.
  ghost predicate AlikeWanted(ps: seq<Pool>, qs: seq<Pool>, a: seq<Wanted>, b: seq<Wanted>) {
    |a| == |b| && forall i :: 0 <= i < |a| ==> a[i].target == b[i].target && SamePlace(ps, qs, a[i].pool.id, b[i].pool.id)
  }

  lemma {:induction false} MissingAlike(ts: seq<Target>, ps: seq<Pool>, qs: seq<Pool>, ports: seq<PortSpec>, have: seq<Member>, base: nat)
    requires AlikePools(ps, qs, base) && forall m :: m in have ==> m.poolId < base
    ensures AlikeWanted(ps, qs, Missing(ts, ps, ports, have), Missing(ts, qs, ports, have))
  {
    if ts != [] {
      var init, t := ts[..|ts| - 1], ts[|ts| - 1];
      MissingAlike(init, ps, qs, ports, have, base);
      if k :| KeyFor(ports, t.port.name) == Some(k) { PoolNamedAlike(ps, qs, base, k); }
      hide AlikePools, SamePlace, KeyFor, PoolNamed;
    }
  }

  lemma NewListenersAlike(kept: seq<Listener>, base: nat, keys: seq<Key>, lb: LoadBalancer, lb': LoadBalancer,
                          ls: seq<Listener>, ms: seq<Listener>)
    requires NewListeners(kept, base, keys, lb, ls) && NewListeners(kept, base, keys, lb', ms)
    ensures Keys(ls) == Keys(ms)
  {
    forall i | 0 <= i < |ls| ensures ls[i].key == ms[i].key {
      if i < |kept| { assert ls[i] == kept[i] && ms[i] == kept[i]; }
    }
  }

  lemma NewPoolsAlike(kept: seq<Pool>, base: nat, k: nat, ls: seq<Listener>, ms: seq<Listener>, ps: seq<Pool>, qs: seq<Pool>)
    requires NewPools(kept, base, k, ls, ps) && NewPools(kept, base, k, ms, qs) && Keys(ls) == Keys(ms)
    ensures AlikePools(ps, qs, base)
  {
    forall i | 0 <= i < |ps| ensures ps[i].name == qs[i].name && (ps[i] == qs[i] || (ps[i].id >= base && qs[i].id >= base)) {
      if i < |kept| {
        assert ps[i] == kept[i] && qs[i] == kept[i];
      } else {
        assert OwnPool(ps[i], ls[k + i - |kept|]) && OwnPool(qs[i], ms[k + i - |kept|]);
        assert Keys(ls)[k + i - |kept|] == Keys(ms)[k + i - |kept|];
      }
    }
  }

  // A member, and the one in its place after another run.
  ghost predicate AlikeMembers(ps: seq<Pool>, qs: seq<Pool>, m: Member, n: Member) {
    m.name == n.name && m.ip == n.ip && m.port == n.port && (m == n || SamePlace(ps, qs, m.poolId, n.poolId))
  }

  lemma NewMembersAlike(kept: seq<Member>, base: nat, a: seq<Wanted>, b: seq<Wanted>, ps: seq<Pool>, qs: seq<Pool>,
                        ms: seq<Member>, ns: seq<Member>)
    requires NewMembers(kept, base, a, ms) && NewMembers(kept, base, b, ns) && AlikeWanted(ps, qs, a, b)
    ensures |ms| == |ns| && forall i :: 0 <= i < |ms| ==> AlikeMembers(ps, qs, ms[i], ns[i])
  {
    hide SamePlace;
    forall i | 0 <= i < |ms| ensures AlikeMembers(ps, qs, ms[i], ns[i]) {
      if i < |kept| {
        assert ms[i] == kept[i] && ns[i] == kept[i];
      } else {
        assert Serves(ms[i], a[i - |kept|]) && Serves(ns[i], b[i - |kept|]);
      }
    }
  }

  // Two runs that complete from the same saved state, however often they were
  // interrupted, end with the same listeners, pools and members, place by
  // place, up to the ids of what they created.
  lemma SameOutcome(c: Ctx, s: State, t: State)
    requires ValidCtx(c) && Reconciled(c, s) && Reconciled(c, t)
    ensures Keys(s.listeners) == Keys(t.listeners) && AlikePools(s.pools, t.pools, c.base) && |s.members| == |t.members|
    ensures forall i :: 0 <= i < |s.members| ==> AlikeMembers(s.pools, t.pools, s.members[i], t.members[i])
  {
    KeptMembersSaved(c);
    hide NewListeners, NewPools, NewMembers, AlikePools, AlikeMembers, KeptListeners, KeptPools, KeptMembers, AddedKeys, ValidCtx, Missing;
    NewListenersAlike(KeptListeners(c), c.base, AddedKeys(c), s.lb.value, t.lb.value, s.listeners, t.listeners);
    NewPoolsAlike(KeptPools(c), c.base, |KeptListeners(c)|, s.listeners, t.listeners, s.pools, t.pools);
    if HasPods(c.subsets) { MissingAlike(AllTargets(c.subsets), s.pools, t.pools, c.spec.ports, KeptMembers(c), c.base); }
    NewMembersAlike(KeptMembers(c), c.base, MissingFrom(c, s.pools), MissingFrom(c, t.pools), s.pools, t.pools, s.members, t.members);
  }

  lemma KeptMembersSaved(c: Ctx)
    requires ValidCtx(c)
    ensures forall m :: m in KeptMembers(c) ==> m.poolId < c.base
  {
    KeptFacts(c);
    SavedHangTogether(c);
    hide WellFormedState, ValidInput, M2, M1, P1, L1;
  }
}
