/**
 Every Octavia call a reconciliation makes keeps its resources recoverable
 from the saved state.
 */
module LbaasRecovery {
  import opened Options
  import opened LbaasModel

  // ---------- what is kept ----------

  lemma KeptFacts(c: Ctx)
    requires ValidCtx(c)
    ensures forall p :: p in P1(c) <==> p in c.s0.pools && InSpec(c.spec.ports, p.name)
    ensures forall m :: m in M1(c) <==> m in c.s0.members && m.id !in UnusedMembers(c)
    ensures forall m :: m in M2(c) <==> m in M1(c) && m.poolId !in UnusedPools(c)
    ensures forall l :: l in L1(c) <==> l in c.s0.listeners && exists p :: p in P1(c) && p.listenerId == l.id
  {
    ExceptMembers(c.s0.pools, PoolId, UnusedPools(c));
    ExceptMembers(c.s0.members, MemberId, UnusedMembers(c));
    ExceptMembers(M1(c), MemberPool, UnusedPools(c));
    ExceptMembers(c.s0.listeners, ListenerId, UnusedListeners(c));
    var r := ResourcesOf(c.s0);
    forall p, q | p in c.s0.pools && q in c.s0.pools && p.id == q.id ensures p == q {
      assert p in r.pools && q in r.pools;
    }
    forall l ensures l in L1(c) <==> l in c.s0.listeners && exists p :: p in P1(c) && p.listenerId == l.id {
      if l in c.s0.listeners && l.id in UnusedListeners(c) {
        var k :| k in c.s0.listeners && (forall p :: p in P1(c) ==> p.listenerId != k.id) && k.id == l.id;
        assert k in r.listeners && l in r.listeners;
        assert k == l;
      }
    }
  }

  // A kept pool keeps its listener.
  lemma KeptPoolLinked(c: Ctx, p: Pool) returns (l: Listener)
    requires ValidCtx(c) && p in P1(c)
    ensures l in L1(c) && l.id == p.listenerId && l.key == p.name && l.lbId == p.lbId
  {
    KeptFacts(c);
    var r := ResourcesOf(c.s0);
    assert p in r.pools;
    assert OnListener(p, r.listeners);
    l :| l in r.listeners && l.id == p.listenerId && l.key == p.name && l.lbId == p.lbId;
  }

  // A kept member keeps its pool.
  lemma KeptMemberLinked(c: Ctx, m: Member) returns (p: Pool)
    requires ValidCtx(c) && m in M2(c)
    ensures p in P1(c) && p.id == m.poolId
  {
    ExceptMembers(c.s0.pools, PoolId, UnusedPools(c));
    ExceptMembers(c.s0.members, MemberId, UnusedMembers(c));
    ExceptMembers(M1(c), MemberPool, UnusedPools(c));
    var r := ResourcesOf(c.s0);
    assert m in r.members;
    assert InPool(m, r.pools);
    p :| p in r.pools && p.id == m.poolId;
  }

  // A kept listener has its pool, and is in the spec.
  lemma KeptListenerLinked(c: Ctx, l: Listener) returns (p: Pool)
    requires ValidCtx(c) && l in L1(c)
    ensures p in P1(c) && OwnPool(p, l) && InSpec(c.spec.ports, l.key)
  {
    KeptFacts(c);
    var r := ResourcesOf(c.s0);
    p :| p in P1(c) && p.listenerId == l.id;
    assert p in r.pools && l in r.listeners;
    assert OnListener(p, r.listeners);
    var k :| k in r.listeners && k.id == p.listenerId && k.key == p.name && k.lbId == p.lbId;
  }

  // Right after a successful reconciliation everything is recoverable,
  // whatever the next spec and endpoints ask for.
  lemma ConsistentIsRecoverable(c: Ctx, next: nat)
    requires ValidCtx(c) && c.base <= next
    ensures Recoverable(c, ResourcesOf(c.s0), next)
  {
    KeptFacts(c);
  }

  // ---------- deletions ----------

  lemma DelMemberRecoverable(c: Ctx, r: Resources, next: nat, id: nat)
    requires Recoverable(c, r, next) && id in UnusedMembers(c)
    ensures Recoverable(c, DelMember(r, id), next)
  {
    ExceptMembers(c.s0.members, MemberId, UnusedMembers(c));
    ExceptMembers(M1(c), MemberPool, UnusedPools(c));
  }

  lemma DelPoolRecoverable(c: Ctx, r: Resources, next: nat, id: nat)
    requires Recoverable(c, r, next) && id in UnusedPools(c)
    ensures Recoverable(c, DelPool(r, id), next)
  {
    ExceptMembers(c.s0.pools, PoolId, UnusedPools(c));
    ExceptMembers(M1(c), MemberPool, UnusedPools(c));
    var r' := DelPool(r, id);
    assert id < c.base by {
      var p :| p in c.s0.pools && p.id == id;
      assert p in ResourcesOf(c.s0).pools;
    }
    forall m | m in r'.members ensures m in c.s0.members || CreatedMember(c, r'.pools, m) {
      if m !in c.s0.members {
        var t, p :| p in r.pools && Feeds(c, t, p) && Serves(m, Wanted(t, p));
        assert p in r'.pools;
      }
    }
    forall m | m in r'.members ensures InPool(m, r'.pools) {
      var p :| p in r.pools && p.id == m.poolId;
      assert p in r'.pools;
    }
  }

  lemma DelListenerRecoverable(c: Ctx, r: Resources, next: nat, id: nat)
    requires Recoverable(c, r, next) && CleanPools(c, r) && id in UnusedListeners(c)
    ensures Recoverable(c, DelListener(r, id), next)
  {
    var r' := DelListener(r, id);
    var gone :| gone in c.s0.listeners && gone.id == id && forall p :: p in P1(c) ==> p.listenerId != id;
    assert gone in ResourcesOf(c.s0).listeners;
    ExceptMembers(c.s0.pools, PoolId, UnusedPools(c));
    ExceptMembers(c.s0.listeners, ListenerId, UnusedListeners(c));
    forall p | p in r.pools ensures OnListener(p, r'.listeners) {
      assert p.listenerId != id by {
        if p in c.s0.pools { assert p in P1(c); }
      }
      var l :| l in r.listeners && l.id == p.listenerId && l.key == p.name && l.lbId == p.lbId;
      assert l in r'.listeners;
    }
  }

  // The saved pools and members hang on the saved load balancer.
  lemma SavedHangTogether(c: Ctx)
    requires ValidCtx(c)
    ensures forall l :: l in c.s0.listeners ==> c.s0.lb.Some? && l.lbId == c.s0.lb.value.id && l.id < c.base
    ensures forall p :: p in c.s0.pools ==> c.s0.lb.Some? && p.lbId == c.s0.lb.value.id && p.listenerId < c.base
    ensures forall m :: m in c.s0.members ==> exists p :: p in c.s0.pools && p.id == m.poolId && p.id < c.base
  {
    var s := ResourcesOf(c.s0);
    forall l | l in c.s0.listeners ensures c.s0.lb.Some? && l.lbId == c.s0.lb.value.id && l.id < c.base {
      assert l in s.listeners;
      assert OnLb(l, s.lbs);
    }
    forall p | p in c.s0.pools ensures c.s0.lb.Some? && p.lbId == c.s0.lb.value.id && p.listenerId < c.base {
      assert p in s.pools;
      assert OnListener(p, s.listeners);
    }
    forall m | m in c.s0.members ensures exists p :: p in c.s0.pools && p.id == m.poolId && p.id < c.base {
      assert m in s.members;
      assert InPool(m, s.pools);
      var p :| p in s.pools && p.id == m.poolId;
      assert p in c.s0.pools;
    }
  }

  lemma DelLbRecoverable(c: Ctx, r: Resources, next: nat)
    requires Recoverable(c, r, next) && c.s0.lb.Some? && !SameLb(c)
    ensures Recoverable(c, DelLb(r, c.s0.lb.value.id), next)
    ensures Clean(c, DelLb(r, c.s0.lb.value.id))
  {
    var id := c.s0.lb.value.id;
    var r' := DelLb(r, id);
    SavedHangTogether(c);
    assert c.s0.lb.value in ResourcesOf(c.s0).lbs;
    forall l | l in r'.listeners ensures CreatedListener(c, r'.lbs, l) {
      var b :| b in r.lbs && b.id == l.lbId && b.ip == c.spec.ip;
      assert b in r'.lbs;
    }
    forall p | p in r'.pools ensures CreatedPool(c, p) {}
    forall m | m in r'.members ensures CreatedMember(c, r'.pools, m) {
      assert InPool(m, r.pools);
      var q :| q in r.pools && q.id == m.poolId;
      assert q.lbId != id && q in r'.pools;
      assert m !in c.s0.members;
      var t, p :| p in r.pools && Feeds(c, t, p) && Serves(m, Wanted(t, p));
      assert p == q;
    }
    DelLbWellFormed(r, id);
  }

  lemma DelLbWellFormed(r: Resources, id: nat)
    requires WellFormed(r)
    ensures WellFormed(DelLb(r, id))
  {
    var r' := DelLb(r, id);
    forall l | l in r'.listeners ensures OnLb(l, r'.lbs) {
      var b :| b in r.lbs && b.id == l.lbId;
      assert b in r'.lbs;
    }
    forall p | p in r'.pools ensures OnListener(p, r'.listeners) {
      var l :| l in r.listeners && l.id == p.listenerId && l.key == p.name && l.lbId == p.lbId;
      assert l in r'.listeners;
    }
    forall m | m in r'.members ensures InPool(m, r'.pools) {
      var p :| p in r.pools && p.id == m.poolId;
      assert p in r'.pools;
    }
  }

  // Without a saved load balancer there is nothing to clean.
  lemma NoLbIsClean(c: Ctx, r: Resources, next: nat)
    requires Recoverable(c, r, next) && c.s0.lb.None?
    ensures Clean(c, r)
  {
    SavedHangTogether(c);
  }

  lemma SameLbIsClean(c: Ctx, r: Resources, next: nat)
    requires Recoverable(c, r, next) && SameLb(c)
    requires CleanMembers(c, r) && CleanPools(c, r) && CleanListeners(c, r)
    ensures Clean(c, r)
  {
    ExceptMembers(c.s0.pools, PoolId, UnusedPools(c));
    ExceptMembers(c.s0.members, MemberId, UnusedMembers(c));
    ExceptMembers(M1(c), MemberPool, UnusedPools(c));
    ExceptMembers(c.s0.listeners, ListenerId, UnusedListeners(c));
  }

  // ---------- creations ----------

  // Nothing can hang on a load balancer that is not there.
  lemma NoLbNothing(r: Resources)
    requires WellFormed(r) && r.lbs == {}
    ensures r.listeners == {} && r.pools == {} && r.members == {}
  {
    assert r.listeners == {} by { assert forall l :: l in r.listeners ==> OnLb(l, r.lbs); }
    assert r.pools == {} by { assert forall p :: p in r.pools ==> OnListener(p, r.listeners); }
    assert r.members == {} by { assert forall m :: m in r.members ==> InPool(m, r.pools); }
  }

  lemma AddLbRecoverable(c: Ctx, r: Resources, next: nat)
    requires Recoverable(c, r, next) && Clean(c, r) && !SameLb(c)
    requires forall b :: b in r.lbs ==> b.ip != c.spec.ip
    ensures Recoverable(c, r.(lbs := r.lbs + {LoadBalancer(next, c.spec.ip)}), next + 1)
    ensures Clean(c, r.(lbs := r.lbs + {LoadBalancer(next, c.spec.ip)}))
  {
    assert r.lbs == {};
    NoLbNothing(r);
  }

  lemma AddListenerRecoverable(c: Ctx, r: Resources, next: nat, lb: LoadBalancer, key: Key)
    requires Recoverable(c, r, next) && Clean(c, r)
    requires lb in r.lbs && key in AddedKeys(c)
    requires forall l :: l in r.listeners ==> !(l.lbId == lb.id && l.key == key)
    ensures Recoverable(c, r.(listeners := r.listeners + {Listener(next, lb.id, key)}), next + 1)
    ensures Clean(c, r.(listeners := r.listeners + {Listener(next, lb.id, key)}))
  {
    hide ValidCtx, KeptListeners, KeptPools, KeptMembers, AddedKeys, SameLb, UniqueLbs, UniquePools, UniqueMembers, LinkedMembers;
    hide KnownLbs, KnownPools, KnownMembers, OnListener, InPool;
    var n := Listener(next, lb.id, key);
    var ls := r.listeners + {n};
    assert CreatedListener(c, r.lbs, n);
    assert UniqueListeners(ls);
    assert LinkedListeners(ls, r.lbs);
    LinkedPoolsGrow(r.pools, r.listeners, ls);
  }

  lemma LinkedPoolsGrow(ps: set<Pool>, ls: set<Listener>, ls': set<Listener>)
    requires LinkedPools(ps, ls) && ls <= ls'
    ensures LinkedPools(ps, ls')
  {
    forall p | p in ps ensures OnListener(p, ls') {
      assert OnListener(p, ls);
      var l :| l in ls && l.id == p.listenerId && l.key == p.name && l.lbId == p.lbId;
      assert l in ls';
    }
  }

  lemma LinkedMembersGrow(ms: set<Member>, ps: set<Pool>, ps': set<Pool>)
    requires LinkedMembers(ms, ps) && ps <= ps'
    ensures LinkedMembers(ms, ps')
  {
    forall m | m in ms ensures InPool(m, ps') {
      assert InPool(m, ps);
      var p :| p in ps && p.id == m.poolId;
      assert p in ps';
    }
  }

  lemma KnownMembersGrow(c: Ctx, ms: set<Member>, ps: set<Pool>, ps': set<Pool>)
    requires KnownMembers(c, ps, ms) && ps <= ps'
    ensures KnownMembers(c, ps', ms)
  {
    forall m | m in ms && m !in c.s0.members ensures CreatedMember(c, ps', m) {
      var t, p :| p in ps && Feeds(c, t, p) && Serves(m, Wanted(t, p));
      assert p in ps';
    }
  }

  lemma AddPoolRecoverable(c: Ctx, r: Resources, next: nat, l: Listener)
    requires Recoverable(c, r, next) && Clean(c, r)
    requires l in r.listeners && l.id >= c.base
    requires forall p :: p in r.pools ==> p.listenerId != l.id
    ensures Recoverable(c, r.(pools := r.pools + {Pool(next, l.lbId, l.id, l.key)}), next + 1)
    ensures Clean(c, r.(pools := r.pools + {Pool(next, l.lbId, l.id, l.key)}))
  {
    hide ValidCtx, KeptListeners, KeptPools, KeptMembers, AddedKeys, SameLb, UniqueLbs, UniqueListeners, UniqueMembers, LinkedListeners;
    hide KnownLbs, KnownListeners, KnownMembers, LinkedMembers, OnLb;
    var n := Pool(next, l.lbId, l.id, l.key);
    var ps := r.pools + {n};
    assert UniquePools(ps);
    assert OnListener(n, r.listeners);
    assert LinkedPools(ps, r.listeners);
    LinkedMembersGrow(r.members, r.pools, ps);
    KnownMembersGrow(c, r.members, r.pools, ps);
  }

  lemma UniqueMembersGrow(ms: set<Member>, m: Member)
    requires UniqueMembers(ms)
    requires forall x :: x in ms ==> x.id != m.id && !(x.poolId == m.poolId && x.ip == m.ip && x.port == m.port)
    ensures UniqueMembers(ms + {m})
  {
  }

  lemma ServesPool(m: Member, w: Wanted)
    requires Serves(m, w)
    ensures m.poolId == w.pool.id
  {
  }

  lemma AddMemberRecoverable(c: Ctx, r: Resources, next: nat, t: Target, p: Pool, m: Member)
    requires Recoverable(c, r, next) && Clean(c, r) && HasPods(c.subsets)
    requires p in r.pools && Feeds(c, t, p) && Serves(m, Wanted(t, p)) && m.id == next
    requires forall x :: x in r.members ==> !(x.poolId == m.poolId && x.ip == m.ip && x.port == m.port)
    ensures Recoverable(c, r.(members := r.members + {m}), next + 1)
    ensures Clean(c, r.(members := r.members + {m}))
  {
    hide ValidCtx, KeptListeners, KeptPools, KeptMembers, AddedKeys, SameLb, UniqueLbs, UniqueListeners, UniquePools, UniqueMembers;
    hide KnownLbs, KnownListeners, KnownPools, LinkedListeners, LinkedPools, Feeds, HasPods, Serves;
    var ms := r.members + {m};
    assert m.poolId == p.id by { ServesPool(m, Wanted(t, p)); }
    UniqueMembersGrow(r.members, m);
    assert LinkedMembers(ms, r.pools) by { assert InPool(m, r.pools); }
    assert KnownMembers(c, r.pools, ms) by { assert CreatedMember(c, r.pools, m); }
  }
}
