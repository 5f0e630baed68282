/** The Endpoints handler: one reconciliation, helper by helper. */
module LbaasHandler {
  import opened Options
  import opened LbaasModel
  import opened LbaasRecovery
  import opened LbaasOutcome
  import opened LbaasDriver

  class LbaasState {
    var lb: Option<LoadBalancer>
    var listeners: seq<Listener>
    var pools: seq<Pool>
    var members: seq<Member>

    constructor (s: State)
      ensures Value() == s
    {
      lb, listeners, pools, members := s.lb, s.listeners, s.pools, s.members;
    }

    ghost function Value(): State
      reads this
    {
      State(lb, listeners, pools, members)
    }
  }

  class LoadBalancerHandler {
    const api: Octavia
    const cfg: Config

    constructor (api: Octavia, cfg: Config)
      ensures this.api == api && this.cfg == cfg
    {
      this.api, this.cfg := api, cfg;
    }

    // The reconciliation in progress started from `c.s0`, and what it left in
    // Octavia so far can be recovered from there.
    ghost predicate Safe(c: Ctx)
      reads api
    {
      c.cfg == cfg && ValidCtx(c) && Recoverable(c, api.res, api.next)
    }

    lemma CtxParts(c: Ctx)
      requires ValidCtx(c)
      ensures WellFormedState(c.s0) && WellFormedState(c.s0.(members := [])) && UniquePorts(c.spec.ports)
    {
      assert WellFormed(ResourcesOf(c.s0.(members := [])));
    }

    lemma SavedMemberName(c: Ctx, m: Member)
      requires ValidCtx(c) && m in c.s0.members
      ensures PodName(m.name).Some?
    {
      assert WellNamed(m);
      var ref :| ValidRef(ref) && m.name == MemberName(ref, m.port);
      PodNameRoundTrip(ref, m.port);
    }

    method GetPortInPool(st: LbaasState, pool: Pool, ports: seq<PortSpec>) returns (r: Option<PortSpec>)
      requires WellFormedState(st.Value()) && pool in st.pools
      ensures r.Some? ==> r.value in ports && KeyOf(r.value) == pool.name
      ensures r.None? ==> !InSpec(ports, pool.name)
    {
      ghost var rs := ResourcesOf(st.Value());
      assert pool in rs.pools && OnListener(pool, rs.listeners);
      ghost var own :| own in rs.listeners && own.id == pool.listenerId && own.key == pool.name && own.lbId == pool.lbId;
      for i := 0 to |st.listeners|
        invariant own in st.listeners[..i] ==> !InSpec(ports, pool.name)
      {
        var l := st.listeners[i];
        assert l in rs.listeners;
        if l.id != pool.listenerId { continue; }
        assert l == own;
        for j := 0 to |ports|
          invariant forall p :: p in ports[..j] ==> KeyOf(p) != pool.name
        {
          if l.key.port == ports[j].port && l.key.protocol == ports[j].protocol { return Some(ports[j]); }
        }
        assert ports[..|ports|] == ports;
      }
      assert st.listeners[..|st.listeners|] == st.listeners;
      return None;
    }

    // The pool each port name currently stands for.
    method SpecPorts(st: LbaasState, ports: seq<PortSpec>) returns (m: map<Option<string>, nat>)
      requires WellFormedState(st.Value()) && UniquePorts(ports)
      ensures forall n :: n in m ==> exists p :: p in st.pools && p.id == m[n] && KeyFor(ports, n) == Some(p.name)
      ensures forall n, p :: p in st.pools && KeyFor(ports, n) == Some(p.name) ==> n in m && m[n] == p.id
    {
      m := map[];
      ghost var rs := ResourcesOf(st.Value());
      for i := 0 to |st.pools|
        invariant forall n :: n in m ==> exists p :: p in st.pools && p.id == m[n] && KeyFor(ports, n) == Some(p.name)
        invariant forall n, p :: p in st.pools[..i] && KeyFor(ports, n) == Some(p.name) ==> n in m && m[n] == p.id
      {
        var pool := st.pools[i];
        var port := GetPortInPool(st, pool, ports);
        ghost var before := m;
        if port.Some? {
          m := m[port.value.name := pool.id];
          KeyForFacts(ports, port.value.name);
        }
        forall n, p | p in st.pools[..i + 1] && KeyFor(ports, n) == Some(p.name) ensures n in m && m[n] == p.id {
          KeyForFacts(ports, n);
          if p == pool {
            assert port.Some? && n == port.value.name;
          } else {
            assert p in st.pools[..i];
            if port.Some? && n == port.value.name { PoolOfState(st.Value(), p, pool); }
          }
        }
      }
      assert st.pools[..|st.pools|] == st.pools;
    }

    lemma PoolOfState(s: State, p: Pool, q: Pool)
      requires WellFormedState(s) && p in s.pools && q in s.pools && p.name == q.name
      ensures p == q
    {
      var r := ResourcesOf(s);
      assert p in r.pools && q in r.pools;
      assert OnListener(p, r.listeners) && OnListener(q, r.listeners);
      assert forall l :: l in r.listeners ==> OnLb(l, r.lbs);
      PoolNamesUnique(r, p, q);
    }

    function TargetTuples(ts: seq<Target>, specPorts: map<Option<string>, nat>): set<(string, string, int, nat)> {
      set t | t in ts && t.port.name in specPorts :: (t.address.ip, RefName(t.address), t.port.port, specPorts[t.port.name])
    }

    // The set of current targets tells the unused members apart.
    ghost predicate Separates(c: Ctx, current: set<(string, string, int, nat)>, m: Member) {
      && PodName(m.name).Some?
      && (m.id in UnusedMembers(c) <==> (m.ip, PodName(m.name).value, m.port, m.poolId) !in current)
    }

    lemma UnusedIffUntargeted(c: Ctx, m: Member)
      requires ValidCtx(c) && HasPods(c.subsets) && m in c.s0.members
      ensures m.id in UnusedMembers(c) <==> !Targeted(c, m)
    {
      hide Targeted, HasPods;
      assert m in ResourcesOf(c.s0).members;
      assert forall x :: x in c.s0.members ==> x in ResourcesOf(c.s0).members;
    }

    lemma TargetedIffCurrent(c: Ctx, m: Member, specPorts: map<Option<string>, nat>, current: set<(string, string, int, nat)>)
      requires ValidCtx(c) && HasPods(c.subsets) && m in c.s0.members
      requires forall n :: n in specPorts ==> exists p :: p in c.s0.pools && p.id == specPorts[n] && KeyFor(c.spec.ports, n) == Some(p.name)
      requires forall n, p :: p in c.s0.pools && KeyFor(c.spec.ports, n) == Some(p.name) ==> n in specPorts && specPorts[n] == p.id
      requires current == TargetTuples(AllTargets(c.subsets), specPorts)
      ensures Separates(c, current, m)
    {
      hide ValidCtx, HasPods, AllTargets, KeyFor, UnusedMembers;
      SavedMemberName(c, m);
      UnusedIffUntargeted(c, m);
      if (m.ip, PodName(m.name).value, m.port, m.poolId) in current {
        var t :| t in AllTargets(c.subsets) && t.port.name in specPorts
          && (m.ip, PodName(m.name).value, m.port, m.poolId) == (t.address.ip, RefName(t.address), t.port.port, specPorts[t.port.name]);
        assert Targeted(c, m);
      }
    }

    lemma AllSeparated(c: Ctx, specPorts: map<Option<string>, nat>, current: set<(string, string, int, nat)>)
      requires ValidCtx(c) && HasPods(c.subsets)
      requires forall n :: n in specPorts ==> exists p :: p in c.s0.pools && p.id == specPorts[n] && KeyFor(c.spec.ports, n) == Some(p.name)
      requires forall n, p :: p in c.s0.pools && KeyFor(c.spec.ports, n) == Some(p.name) ==> n in specPorts && specPorts[n] == p.id
      requires current == TargetTuples(AllTargets(c.subsets), specPorts)
      ensures forall m :: m in c.s0.members ==> Separates(c, current, m)
    {
      forall m | m in c.s0.members ensures Separates(c, current, m) {
        TargetedIffCurrent(c, m, specPorts, current);
      }
    }

    // The targets of the Endpoints object, none if a subset cannot be read.
    method ReadTargets(subsets: seq<Subset>) returns (targets: Option<seq<Target>>)
      ensures targets.None? <==> Incomplete(subsets)
      ensures targets.Some? ==> targets.value == AllTargets(subsets)
    {
      var read := [];
      for i := 0 to |subsets|
        invariant forall s :: s in subsets[..i] ==> !CannotRead(s)
        invariant read == AllTargets(subsets[..i])
      {
        var s := subsets[i];
        assert s in subsets;
        if s.addresses.None? { return None; }
        if s.addresses.value != [] && s.ports.None? { return None; }
        read := read + SubsetTargets(AddressesOf(s), PortsOf(s));
        assert subsets[..i + 1][..i] == subsets[..i];
      }
      assert subsets[..|subsets|] == subsets;
      return Some(read);
    }

    // A subset without its addresses, or without the ports for them, ends the
    // run; from any other input the targets tell the unused members apart.
    method CurrentTargets(st: LbaasState, spec: ServiceSpec, subsets: seq<Subset>, ghost c: Ctx)
      returns (current: Option<set<(string, string, int, nat)>>)
      requires Safe(c) && st.Value() == c.s0 && c.spec == spec && c.subsets == subsets && HasPods(subsets)
      ensures current.None? <==> Unreadable(c)
      ensures current.Some? ==> forall m :: m in c.s0.members ==> Separates(c, current.value, m)
    {
      CtxParts(c);
      var specPorts := SpecPorts(st, spec.ports);
      hide ValidCtx, Recoverable, WellFormedState, HasPods, Incomplete, AllTargets, KeyFor, Separates;
      var targets := ReadTargets(subsets);
      if targets.None? { return None; }
      current := Some(TargetTuples(targets.value, specPorts));
      AllSeparated(c, specPorts, current.value);
    }

    lemma UnusedAreSaved(c: Ctx)
      ensures forall id :: id in UnusedMembers(c) ==> exists m :: m in c.s0.members && m.id == id
    {
    }

    // Releases every member that is not among the current targets.
    method ReleaseMembers(st: LbaasState, current: set<(string, string, int, nat)>, ghost c: Ctx)
      returns (ok: bool, removed: set<nat>)
      requires Safe(c) && st.members == c.s0.members
      requires forall m :: m in c.s0.members ==> Separates(c, current, m)
      modifies api
      ensures Safe(c) && Spent(old(api.calls), api.calls, |c.s0.members|, ok) && api.res.lbs == old(api.res.lbs)
      ensures ok ==> removed <= UnusedMembers(c) && forall m :: m in c.s0.members && m.id in UnusedMembers(c) ==> m.id in removed
      ensures ok ==> forall m :: m in api.res.members ==> m.id !in removed
    {
      hide Recoverable, ValidCtx, UnusedMembers;
      removed := {};
      for i := 0 to |st.members|
        invariant Safe(c) && Spent(old(api.calls), api.calls, i, true) && api.res.lbs == old(api.res.lbs)
        invariant removed <= UnusedMembers(c)
        invariant forall m :: m in st.members[..i] && m.id in UnusedMembers(c) ==> m.id in removed
        invariant forall m :: m in api.res.members ==> m.id !in removed
      {
        var m := st.members[i];
        assert Separates(c, current, m);
        if (m.ip, PodName(m.name).value, m.port, m.poolId) in current { continue; }
        DelMemberRecoverable(c, api.res, api.next, m.id);
        ok := api.DeleteMember(m.id);
        if !ok { return false, removed; }
        removed := removed + {m.id};
      }
      assert st.members[..|st.members|] == st.members;
      ok := true;
    }

    method RemoveUnusedMembers(st: LbaasState, spec: ServiceSpec, subsets: seq<Subset>, ghost c: Ctx)
      returns (o: Outcome, changed: bool)
      requires Safe(c) && st.Value() == c.s0 && c.spec == spec && c.subsets == subsets && HasPods(subsets)
      modifies st`members, api
      ensures Safe(c) && Spent(old(api.calls), api.calls, |c.s0.members|, !o.CutShort?) && api.res.lbs == old(api.res.lbs)
      ensures o.Crashed? <==> Unreadable(c)
      ensures o.Crashed? ==> st.members == c.s0.members && api.res == old(api.res) && api.calls == old(api.calls)
      ensures o.Done? ==> st.members == M1(c) && changed == (UnusedMembers(c) != {}) && CleanMembers(c, api.res)
    {
      hide Recoverable, ValidCtx, Unreadable;
      var current := CurrentTargets(st, spec, subsets, c);
      if current.None? { return Crashed, false; }
      var ok, removed := ReleaseMembers(st, current.value, c);
      if !ok { return CutShort, false; }
      assert removed == UnusedMembers(c) by { UnusedAreSaved(c); }
      ExceptAll(st.members, MemberId, removed);
      if removed != {} { st.members := Except(st.members, MemberId, removed); }
      return Done, removed != {};
    }

    method IsPoolInSpec(st: LbaasState, pool: Pool, ports: seq<PortSpec>) returns (r: bool)
      requires WellFormedState(st.Value().(members := [])) && pool in st.pools
      ensures r == InSpec(ports, pool.name)
    {
      ghost var rs := ResourcesOf(st.Value().(members := []));
      assert pool in rs.pools && OnListener(pool, rs.listeners);
      ghost var own :| own in rs.listeners && own.id == pool.listenerId && own.key == pool.name && own.lbId == pool.lbId;
      for i := 0 to |st.listeners|
        invariant own in st.listeners[..i] ==> !InSpec(ports, pool.name)
      {
        var l := st.listeners[i];
        assert l in rs.listeners;
        if l.id != pool.listenerId { continue; }
        assert l == own;
        for j := 0 to |ports|
          invariant forall p :: p in ports[..j] ==> KeyOf(p) != pool.name
        {
          if l.key.port == ports[j].port && l.key.protocol == ports[j].protocol {
            assert KeyOf(ports[j]) == pool.name;
            return true;
          }
        }
        assert ports[..|ports|] == ports;
      }
      assert st.listeners[..|st.listeners|] == st.listeners;
      return false;
    }

    lemma UnusedPoolIds(c: Ctx)
      ensures forall p :: p in c.s0.pools && !InSpec(c.spec.ports, p.name) ==> p.id in UnusedPools(c)
      ensures forall id :: id in UnusedPools(c) ==> exists p :: p in c.s0.pools && p.id == id && !InSpec(c.spec.ports, p.name)
    {
    }

    // Of the pools in `done` those outside the spec are released.
    ghost predicate PoolsReleased(c: Ctx, done: seq<Pool>, r: Resources, removed: set<nat>) {
      && removed <= UnusedPools(c)
      && (forall p :: p in done && !InSpec(c.spec.ports, p.name) ==> p.id in removed)
      && (forall p :: p in r.pools ==> p.id !in removed)
      && (forall m :: m in r.members ==> m.poolId !in removed)
    }

    lemma NoneReleased(c: Ctx, r: Resources)
      ensures PoolsReleased(c, [], r, {})
    {
    }

    lemma OneMorePool(c: Ctx, done: seq<Pool>, r: Resources, removed: set<nat>, p: Pool)
      requires PoolsReleased(c, done, r, removed) && p in c.s0.pools
      ensures InSpec(c.spec.ports, p.name) ==> PoolsReleased(c, done + [p], r, removed)
      ensures !InSpec(c.spec.ports, p.name) ==>
                p.id in UnusedPools(c) && PoolsReleased(c, done + [p], DelPool(r, p.id), removed + {p.id})
    {
      UnusedPoolIds(c);
      hide UnusedPools, InSpec;
    }

    lemma AllReleased(c: Ctx, r: Resources, removed: set<nat>)
      requires PoolsReleased(c, c.s0.pools, r, removed)
      ensures removed == UnusedPools(c) && CleanPools(c, r)
    {
      UnusedPoolIds(c);
      assert removed == UnusedPools(c);
      hide UnusedPools, InSpec;
    }

    // Releases every pool that is not in the spec.
    method ReleasePools(st: LbaasState, ports: seq<PortSpec>, ghost c: Ctx) returns (ok: bool, removed: set<nat>)
      requires Safe(c) && st.listeners == c.s0.listeners && st.pools == c.s0.pools && st.lb == c.s0.lb && c.spec.ports == ports
      modifies api
      ensures Safe(c) && Spent(old(api.calls), api.calls, |c.s0.pools|, ok) && api.res.lbs == old(api.res.lbs)
      ensures api.res.members <= old(api.res.members)
      ensures ok ==> removed == UnusedPools(c) && CleanPools(c, api.res)
    {
      hide Recoverable, ValidCtx, WellFormedState, UniquePorts;
      CtxParts(c);
      assert st.Value().(members := []) == c.s0.(members := []);
      hide Recoverable, ValidCtx, WellFormedState, WellFormed, UnusedMembers, UnusedPools, InSpec, PoolsReleased;
      removed := {};
      NoneReleased(c, api.res);
      for i := 0 to |st.pools|
        invariant Safe(c) && Spent(old(api.calls), api.calls, i, true) && api.res.lbs == old(api.res.lbs)
        invariant api.res.members <= old(api.res.members)
        invariant PoolsReleased(c, st.pools[..i], api.res, removed)
      {
        var p := st.pools[i];
        assert st.pools[..i + 1] == st.pools[..i] + [p];
        var there := IsPoolInSpec(st, p, ports);
        OneMorePool(c, st.pools[..i], api.res, removed, p);
        if there { continue; }
        DelPoolRecoverable(c, api.res, api.next, p.id);
        ok := api.DeletePool(p.id);
        if !ok { return false, removed; }
        removed := removed + {p.id};
      }
      assert st.pools[..|st.pools|] == st.pools;
      AllReleased(c, api.res, removed);
      ok := true;
    }

    method RemoveUnusedPools(st: LbaasState, spec: ServiceSpec, ghost c: Ctx) returns (ok: bool, changed: bool)
      requires Safe(c) && st.Value() == c.s0.(members := M1(c)) && c.spec == spec
      modifies st`pools, st`members, api
      ensures Safe(c) && Spent(old(api.calls), api.calls, |c.s0.pools|, ok) && api.res.lbs == old(api.res.lbs)
      ensures old(CleanMembers(c, api.res)) ==> CleanMembers(c, api.res)
      ensures ok ==> st.pools == P1(c) && st.members == M2(c) && changed == (UnusedPools(c) != {}) && CleanPools(c, api.res)
    {
      hide Recoverable, ValidCtx;
      var removed: set<nat>;
      ok, removed := ReleasePools(st, spec.ports, c);
      if !ok { return false, false; }
      ExceptAll(st.pools, PoolId, removed);
      ExceptAll(st.members, MemberPool, removed);
      if removed != {} {
        st.pools := Except(st.pools, PoolId, removed);
        st.members := Except(st.members, MemberPool, removed);
      }
      return true, removed != {};
    }

    // While the load balancer is there its address has a port, and only then.
    lemma AddressInUse(c: Ctx, r: Resources, next: nat)
      requires Recoverable(c, r, next) && c.s0.lb.Some?
      ensures c.s0.lb.value in r.lbs <==> exists b :: b in r.lbs && b.ip == c.s0.lb.value.ip
    {
    }

    // Of the listeners in `done` those without a pool are released, for which
    // the load balancer's address had its port.
    ghost predicate ListenersReleased(c: Ctx, done: seq<Listener>, r: Resources, removed: set<nat>) {
      && removed <= UnusedListeners(c)
      && (forall l :: l in done && l.id in UnusedListeners(c) ==> l.id in removed)
      && (forall l :: l in r.listeners ==> l.id !in removed)
      && (removed != {} && !c.cfg.sgCreate ==> c.s0.lb.Some? && c.s0.lb.value in r.lbs)
    }

    lemma NoListenerReleased(c: Ctx, r: Resources)
      ensures ListenersReleased(c, [], r, {})
    {
    }

    lemma OneMoreListener(c: Ctx, done: seq<Listener>, r: Resources, removed: set<nat>, l: Listener)
      requires ListenersReleased(c, done, r, removed)
      ensures l.id !in UnusedListeners(c) ==> ListenersReleased(c, done + [l], r, removed)
      ensures l.id in UnusedListeners(c) && (c.cfg.sgCreate || (c.s0.lb.Some? && c.s0.lb.value in r.lbs)) ==>
                ListenersReleased(c, done + [l], DelListener(r, l.id), removed + {l.id})
    {
      hide UnusedListeners;
    }

    lemma AllListenersReleased(c: Ctx, r: Resources, removed: set<nat>)
      requires ListenersReleased(c, c.s0.listeners, r, removed)
      ensures removed == UnusedListeners(c) && CleanListeners(c, r) && !LostLb(c, r)
    {
    }

    // The members, pools and load balancers stay clean while listeners go.
    lemma ListenerGone(c: Ctx, r: Resources, next: nat, id: nat)
      requires Recoverable(c, r, next) && CleanPools(c, r) && id in UnusedListeners(c)
      ensures var r' := DelListener(r, id);
              && Recoverable(c, r', next) && CleanPools(c, r') && r'.lbs == r.lbs
              && (CleanMembers(c, r) ==> CleanMembers(c, r'))
    {
      DelListenerRecoverable(c, r, next, id);
    }

    // Crashes when the load balancer that the listener was on is gone.
    method ReleaseUnused(lb: LoadBalancer, l: Listener, ghost c: Ctx, ghost done: seq<Listener>, ghost removed: set<nat>) returns (o: Outcome)
      requires Safe(c) && c.s0.lb == Some(lb) && l.id in UnusedListeners(c)
      requires CleanPools(c, api.res) && ListenersReleased(c, done, api.res, removed)
      modifies api
      ensures Safe(c) && Spent(old(api.calls), api.calls, 2, !o.CutShort?) && api.res.lbs == old(api.res.lbs)
      ensures CleanPools(c, api.res) && (old(CleanMembers(c, api.res)) ==> CleanMembers(c, api.res))
      ensures o.Done? ==> ListenersReleased(c, done + [l], api.res, removed + {l.id})
      ensures !o.CutShort? ==> (o.Crashed? <==> LostLb(c, api.res))
    {
      OneMoreListener(c, done, api.res, removed, l);
      ListenerGone(c, api.res, api.next, l.id);
      AddressInUse(c, api.res, api.next);
      hide Recoverable, ValidCtx, UnusedListeners, ListenersReleased, CleanPools, CleanMembers, DelListener;
      o := api.ReleaseListener(cfg, lb, l.id);
    }

    // Releases every listener without a pool.
    method ReleaseListeners(st: LbaasState, ghost c: Ctx) returns (o: Outcome, removed: set<nat>)
      requires Safe(c) && st.Value() == c.s0.(pools := P1(c), members := M2(c)) && CleanPools(c, api.res)
      modifies api
      ensures Safe(c) && Spent(old(api.calls), api.calls, 2 * |c.s0.listeners|, !o.CutShort?) && api.res.lbs == old(api.res.lbs)
      ensures CleanPools(c, api.res) && (old(CleanMembers(c, api.res)) ==> CleanMembers(c, api.res))
      ensures o.Done? ==> removed == UnusedListeners(c) && CleanListeners(c, api.res)
      ensures !o.CutShort? ==> (o.Crashed? <==> LostLb(c, api.res))
    {
      hide Recoverable, ValidCtx, UnusedListeners, ListenersReleased, CleanPools, CleanMembers, CleanListeners, P1, M2, LostLb;
      var current := set p | p in st.pools :: p.listenerId;
      UnusedAreFree(c, current);
      NoListenerReleased(c, api.res);
      hide Safe;
      removed := {};
      for i := 0 to |st.listeners|
        invariant Safe(c) && Spent(old(api.calls), api.calls, 2 * i, true) && api.res.lbs == old(api.res.lbs)
        invariant CleanPools(c, api.res) && (old(CleanMembers(c, api.res)) ==> CleanMembers(c, api.res))
        invariant ListenersReleased(c, st.listeners[..i], api.res, removed)
      {
        var l := st.listeners[i];
        assert st.listeners[..i + 1] == st.listeners[..i] + [l];
        if l.id in current {
          OneMoreListener(c, st.listeners[..i], api.res, removed, l);
          continue;
        }
        o := ReleaseUnused(st.lb.value, l, c, st.listeners[..i], removed);
        if !o.Done? { return o, removed; }
        removed := removed + {l.id};
      }
      assert st.listeners[..|st.listeners|] == st.listeners;
      AllListenersReleased(c, api.res, removed);
      o := Done;
    }

    lemma UnusedAreFree(c: Ctx, current: set<nat>)
      requires ValidCtx(c) && current == set p | p in P1(c) :: p.listenerId
      ensures forall l :: l in c.s0.listeners ==> c.s0.lb.Some? && (l.id in UnusedListeners(c) <==> l.id !in current)
    {
      SavedHangTogether(c);
    }

    method RemoveUnusedListeners(st: LbaasState, ghost c: Ctx) returns (o: Outcome, changed: bool)
      requires Safe(c) && st.Value() == c.s0.(pools := P1(c), members := M2(c)) && CleanPools(c, api.res)
      modifies st`listeners, api
      ensures Safe(c) && Spent(old(api.calls), api.calls, 2 * |c.s0.listeners|, !o.CutShort?) && api.res.lbs == old(api.res.lbs)
      ensures CleanPools(c, api.res) && (old(CleanMembers(c, api.res)) ==> CleanMembers(c, api.res))
      ensures o.Done? ==> st.listeners == L1(c) && changed == (UnusedListeners(c) != {}) && CleanListeners(c, api.res)
      ensures !o.CutShort? ==> (o.Crashed? <==> LostLb(c, api.res))
    {
      hide Recoverable, ValidCtx, UnusedListeners, LostLb, CleanPools, CleanMembers, CleanListeners;
      var removed: set<nat>;
      o, removed := ReleaseListeners(st, c);
      if !o.Done? { return o, false; }
      ExceptAll(st.listeners, ListenerId, removed);
      if removed != {} { st.listeners := Except(st.listeners, ListenerId, removed); }
      changed := removed != {};
    }

    // A load balancer on another address goes, with everything on it.
    method ReleaseOldLoadBalancer(st: LbaasState, spec: ServiceSpec, ghost c: Ctx) returns (ok: bool, changed: bool)
      requires Safe(c) && st.Value() == State(c.s0.lb, L1(c), P1(c), M2(c)) && c.spec == spec
      requires SameLb(c) ==> Clean(c, api.res)
      modifies st, api
      ensures Safe(c) && Spent(old(api.calls), api.calls, 1, ok)
      ensures ok ==> Clean(c, api.res) && changed == (c.s0.lb.Some? && !SameLb(c))
      ensures ok ==> st.lb == if SameLb(c) then c.s0.lb else None
      ensures ok ==> st.listeners == KeptListeners(c) && st.pools == KeptPools(c) && st.members == KeptMembers(c)
    {
      hide Recoverable, ValidCtx, WellFormedState, WellFormed;
      if st.lb.Some? && st.lb.value.ip != spec.ip {
        DelLbRecoverable(c, api.res, api.next);
        ok := api.DeleteLoadBalancer(st.lb.value.id);
        if !ok { return false, false; }
        st.lb, st.pools, st.listeners, st.members := None, [], [], [];
        return true, true;
      }
      if st.lb.None? {
        NoLbIsClean(c, api.res, api.next);
        NoLbNoLists(c);
      }
      return true, false;
    }

    lemma NoLbNoLists(c: Ctx)
      requires ValidCtx(c) && c.s0.lb.None?
      ensures L1(c) == [] && P1(c) == [] && M2(c) == []
    {
      SavedHangTogether(c);
      KeptFacts(c);
      EmptyOrNot(L1(c));
      EmptyOrNot(P1(c));
      EmptyOrNot(M2(c));
    }

    lemma EmptyOrNot<T(!new)>(s: seq<T>)
      ensures s == [] || exists x :: x in s
    {
      if s != [] { assert s[0] in s; }
    }

    lemma HoldsSavedLb(c: Ctx, r: Resources, next: nat)
      requires Recoverable(c, r, next) && SameLb(c)
      ensures c.s0.lb.value in r.lbs
    {
    }

    method SyncLoadBalancer(st: LbaasState, spec: ServiceSpec, ghost c: Ctx) returns (ok: bool, changed: bool)
      requires Safe(c) && st.Value() == State(c.s0.lb, L1(c), P1(c), M2(c)) && c.spec == spec
      requires SameLb(c) ==> Clean(c, api.res)
      modifies st, api
      ensures Safe(c) && Spent(old(api.calls), api.calls, 3, ok)
      ensures ok ==> Clean(c, api.res) && changed == !SameLb(c)
      ensures ok ==> st.lb.Some? && st.lb.value in api.res.lbs && st.lb.value.ip == spec.ip && (SameLb(c) ==> st.lb == c.s0.lb)
      ensures ok ==> st.listeners == KeptListeners(c) && st.pools == KeptPools(c) && st.members == KeptMembers(c)
    {
      hide Recoverable, ValidCtx, WellFormedState, WellFormed;
      ok, changed := ReleaseOldLoadBalancer(st, spec, c);
      if !ok { return; }
      if SameLb(c) { HoldsSavedLb(c, api.res, api.next); }
      if st.lb.None? {
        ghost var r, n := api.res, api.next;
        var reply := api.EnsureLoadBalancer(spec.ip);
        if !reply.Got? { return false, changed; }
        if api.res != r { AddLbRecoverable(c, r, n); }
        st.lb := Some(reply.value);
        changed := true;
      }
    }

    // ---------- new listeners ----------

    lemma KeptThere(c: Ctx, r: Resources, next: nat)
      requires Recoverable(c, r, next)
      ensures WellFormed(r)
      ensures forall l :: l in KeptListeners(c) ==> l in r.listeners
      ensures forall p :: p in KeptPools(c) ==> p in r.pools
      ensures forall m :: m in KeptMembers(c) ==> m in r.members
    {
    }

    lemma KeysMembers(ls: seq<Listener>)
      ensures forall l :: l in ls ==> l.key in Keys(ls)
    {
      forall l | l in ls ensures l.key in Keys(ls) {
        var i :| 0 <= i < |ls| && ls[i] == l;
        assert Keys(ls)[i] == l.key;
      }
    }

    lemma KeyLookups(ls: seq<Listener>, k: Key)
      ensures (exists l :: l in ls && l.key.port == k.port && l.key.protocol == k.protocol) <==> k in Keys(ls)
      ensures (exists l :: l in ls && l.key.port == k.port) <==> PortTaken(Keys(ls), k.port)
    {
      KeysMembers(ls);
      forall x | x in Keys(ls) ensures exists l :: l in ls && l.key == x {
        var i :| 0 <= i < |Keys(ls)| && Keys(ls)[i] == x;
        assert ls[i] in ls;
      }
    }

    lemma ListenerAppended(kept: seq<Listener>, base: nat, keys: seq<Key>, lb: LoadBalancer, ls: seq<Listener>, l: Listener)
      requires NewListeners(kept, base, keys, lb, ls) && l.lbId == lb.id && l.id >= base
      ensures NewListeners(kept, base, keys + [l.key], lb, ls + [l])
    {
    }

    // The listener to add for the `i`-th port, if any.
    method AddListener(st: LbaasState, lb: LoadBalancer, key: Key, ghost c: Ctx, ghost keys: seq<Key>) returns (ok: bool, added: bool)
      requires Safe(c) && Clean(c, api.res) && lb in api.res.lbs && lb.ip == c.spec.ip
      requires NewListeners(KeptListeners(c), c.base, keys, lb, st.listeners)
      requires Creates(Keys(KeptListeners(c)) + keys, key, cfg) ==> key in AddedKeys(c)
      requires forall l :: l in st.listeners ==> l in api.res.listeners
      modifies st`listeners, api
      ensures Safe(c) && Clean(c, api.res) && lb in api.res.lbs && Spent(old(api.calls), api.calls, 2, ok)
      ensures ok ==> added == Creates(Keys(KeptListeners(c)) + keys, key, cfg)
      ensures ok ==> NewListeners(KeptListeners(c), c.base, if added then keys + [key] else keys, lb, st.listeners)
      ensures forall l :: l in st.listeners ==> l in api.res.listeners
    {
      hide Recoverable, ValidCtx, WellFormed, NewListeners, KeptListeners, AddedKeys, Clean;
      KeysOfNew(KeptListeners(c), c.base, keys, lb, st.listeners);
      KeyLookups(st.listeners, key);
      if exists l :: l in st.listeners && l.key.port == key.port && l.key.protocol == key.protocol { return true, false; }
      if (exists l :: l in st.listeners && l.key.port == key.port) && !cfg.doubleListeners { return true, false; }
      ghost var r, n := api.res, api.next;
      var reply := api.EnsureListener(cfg, lb, key);
      if !reply.Got? { return false, false; }
      if reply.value.None? { return true, false; }
      var l := reply.value.value;
      if api.res != r { AddListenerRecoverable(c, r, n, lb, key); }
      NewIsCreated(c, api.res, api.next, l, keys);
      ListenerAppended(KeptListeners(c), c.base, keys, lb, st.listeners, l);
      st.listeners := st.listeners + [l];
      return true, true;
    }

    lemma NewIsCreated(c: Ctx, r: Resources, next: nat, l: Listener, keys: seq<Key>)
      requires Recoverable(c, r, next) && Clean(c, r) && l in r.listeners
      requires l.key !in Keys(KeptListeners(c)) + keys
      ensures l.id >= c.base
    {
      KeysMembers(KeptListeners(c));
    }

    // What the next port contributes belongs to what is added in the end.
    lemma NextKey(c: Ctx, i: nat)
      requires i < |SortByProtocol(c.spec.ports)|
      ensures var ports := SortByProtocol(c.spec.ports); var have := Keys(KeptListeners(c));
              && NewKeys(have, ports[..i + 1], c.cfg) ==
                   NewKeys(have, ports[..i], c.cfg) +
                   (if Creates(have + NewKeys(have, ports[..i], c.cfg), KeyOf(ports[i]), c.cfg) then [KeyOf(ports[i])] else [])
              && (Creates(have + NewKeys(have, ports[..i], c.cfg), KeyOf(ports[i]), c.cfg) ==> KeyOf(ports[i]) in AddedKeys(c))
    {
      var ports := SortByProtocol(c.spec.ports);
      var have := Keys(KeptListeners(c));
      assert ports[..i + 1][..i] == ports[..i];
      NewKeysPrefix(have, ports, i + 1, c.cfg);
      var now := NewKeys(have, ports[..i + 1], c.cfg);
      if Creates(have + NewKeys(have, ports[..i], c.cfg), KeyOf(ports[i]), c.cfg) {
        assert now[|now| - 1] == AddedKeys(c)[|now| - 1];
      }
    }

    lemma SortedCount(ports: seq<PortSpec>)
      ensures |SortByProtocol(ports)| == |ports|
    {
      SortKeepsAll(ports);
      assert |multiset(SortByProtocol(ports))| == |multiset(ports)|;
    }

    lemma NoNewListeners(kept: seq<Listener>, base: nat, lb: LoadBalancer)
      ensures NewListeners(kept, base, [], lb, kept)
    {
    }

    method AddNewListeners(st: LbaasState, spec: ServiceSpec, ghost c: Ctx) returns (ok: bool, changed: bool)
      requires Safe(c) && Clean(c, api.res) && c.spec == spec
      requires st.lb.Some? && st.lb.value in api.res.lbs && st.lb.value.ip == spec.ip
      requires st.listeners == KeptListeners(c)
      modifies st`listeners, api
      ensures Safe(c) && Spent(old(api.calls), api.calls, 2 * |spec.ports|, ok)
      ensures ok ==> Clean(c, api.res) && st.lb.value in api.res.lbs && changed == (AddedKeys(c) != [])
      ensures ok ==> NewListeners(KeptListeners(c), c.base, AddedKeys(c), st.lb.value, st.listeners)
      ensures ok ==> forall l :: l in st.listeners ==> l in api.res.listeners
    {
      hide ValidCtx, Recoverable, WellFormed, Clean;
      KeptThere(c, api.res, api.next);
      SortedCount(spec.ports);
      hide Recoverable, ValidCtx, WellFormed, KeptListeners, Clean, NewListeners, SortByProtocol, AddedKeys, Creates, KeyOf;
      assert c.cfg == cfg;
      hide Safe;
      changed := false;
      var lb := st.lb.value;
      var ports := SortByProtocol(spec.ports);
      NoNewListeners(KeptListeners(c), c.base, lb);
      ghost var have := Keys(KeptListeners(c));
      for i := 0 to |ports|
        modifies st`listeners, api
        invariant Safe(c) && Clean(c, api.res) && lb in api.res.lbs && Spent(old(api.calls), api.calls, 2 * i, true)
        invariant NewListeners(KeptListeners(c), c.base, NewKeys(have, ports[..i], cfg), lb, st.listeners)
        invariant forall l :: l in st.listeners ==> l in api.res.listeners
        invariant changed == (NewKeys(have, ports[..i], cfg) != [])
      {
        assert ports[..i + 1][..i] == ports[..i];
        NextKey(c, i);
        var added: bool;
        ok, added := AddListener(st, lb, KeyOf(ports[i]), c, NewKeys(have, ports[..i], cfg));
        if !ok { return; }
        changed := changed || added;
      }
      assert ports[..|ports|] == ports;
      ok := true;
    }

    // ---------- new pools ----------

    lemma KeptListenerIds(c: Ctx)
      requires ValidCtx(c)
      ensures forall l :: l in KeptListeners(c) ==> exists p :: p in KeptPools(c) && p.listenerId == l.id
      ensures forall p :: p in KeptPools(c) ==> p.listenerId < c.base
    {
      SavedBelow(c);
      forall l | l in KeptListeners(c) ensures exists p :: p in KeptPools(c) && p.listenerId == l.id {
        var p := KeptListenerLinked(c, l);
      }
    }

    lemma PoolIsCreated(c: Ctx, r: Resources, next: nat, p: Pool)
      requires Recoverable(c, r, next) && Clean(c, r) && p in r.pools && p.listenerId >= c.base
      ensures p.id >= c.base
    {
      SavedBelow(c);
    }

    // The first `i` listeners have their pools.
    ghost predicate Pooled(c: Ctx, r: Resources, ls: seq<Listener>, i: nat, pools: seq<Pool>) {
      var k := |KeptListeners(c)|;
      && i <= |ls| && k <= |ls|
      && NewPools(KeptPools(c), c.base, k, ls[..if i < k then k else i], pools)
      && (forall p :: p in pools ==> p in r.pools)
      && (forall l :: l in ls ==> l in r.listeners)
    }

    // The pool Octavia answers with, found or just created, is the listener's.
    lemma PoolAnswered(c: Ctx, r: Resources, n: nat, r': Resources, n': nat, ls: seq<Listener>, i: nat, pools: seq<Pool>, p: Pool)
      requires Recoverable(c, r, n) && Clean(c, r) && Pooled(c, r, ls, i, pools)
      requires |KeptListeners(c)| <= i < |ls| && ls[i].id >= c.base
      requires || (r' == r && n' == n && p in r.pools && OwnPool(p, ls[i]))
               || (p == Pool(n, ls[i].lbId, ls[i].id, ls[i].key) && n' == n + 1 && r' == r.(pools := r.pools + {p})
                   && forall x :: x in r.pools ==> x.listenerId != ls[i].id)
      ensures Recoverable(c, r', n') && Clean(c, r') && Pooled(c, r', ls, i + 1, pools + [p])
    {
      hide Recoverable, Clean, KeptListeners, KeptPools, NewPools;
      if r' != r { AddPoolRecoverable(c, r, n, ls[i]); }
      PoolIsCreated(c, r', n', p);
      PoolAppended(KeptPools(c), c.base, |KeptListeners(c)|, ls, i, pools, p);
    }

    // The pool of the `i`-th listener.
    method AddPool(st: LbaasState, i: nat, ghost c: Ctx) returns (ok: bool)
      requires Safe(c) && Clean(c, api.res) && |KeptListeners(c)| <= i < |st.listeners| && st.listeners[i].id >= c.base
      requires Pooled(c, api.res, st.listeners, i, st.pools)
      modifies st`pools, api
      ensures Safe(c) && Clean(c, api.res) && Spent(old(api.calls), api.calls, 2, ok)
      ensures api.res.lbs == old(api.res.lbs)
      ensures ok ==> Pooled(c, api.res, st.listeners, i + 1, st.pools)
    {
      KeptThere(c, api.res, api.next);
      assert st.listeners[i] in api.res.listeners;
      ghost var r, n := api.res, api.next;
      hide *;
      var reply := api.EnsurePool(st.listeners[i]);
      if !reply.Got? { return false; }
      PoolAnswered(c, r, n, api.res, api.next, st.listeners, i, st.pools, reply.value);
      st.pools := st.pools + [reply.value];
      return true;
    }

    lemma PoolsStart(c: Ctx, r: Resources, next: nat, keys: seq<Key>, lb: LoadBalancer, ls: seq<Listener>, current: set<nat>)
      requires Recoverable(c, r, next) && NewListeners(KeptListeners(c), c.base, keys, lb, ls)
      requires current == set p | p in KeptPools(c) :: p.listenerId
      requires forall l :: l in ls ==> l in r.listeners
      ensures |ls| == |KeptListeners(c)| + |keys|
      ensures Pooled(c, r, ls, 0, KeptPools(c))
      ensures forall i :: 0 <= i < |ls| ==> (i < |KeptListeners(c)| <==> ls[i].id in current)
      ensures forall i :: |KeptListeners(c)| <= i < |ls| ==> ls[i].id >= c.base
    {
      var kept := KeptListeners(c);
      KeptThere(c, r, next);
      KeptListenerIds(c);
      forall i | 0 <= i < |kept| ensures ls[i].id in current {
        assert ls[i] == kept[i] && kept[i] in kept;
      }
    }

    // One pool for every listener that is not in `current`.
    method PoolListeners(st: LbaasState, current: set<nat>, ghost c: Ctx) returns (ok: bool, changed: bool)
      requires Safe(c) && Clean(c, api.res) && Pooled(c, api.res, st.listeners, 0, st.pools)
      requires |KeptListeners(c)| <= |st.listeners|
      requires forall i :: 0 <= i < |st.listeners| ==> (i < |KeptListeners(c)| <==> st.listeners[i].id in current)
      requires forall i :: |KeptListeners(c)| <= i < |st.listeners| ==> st.listeners[i].id >= c.base
      modifies st`pools, api
      ensures Safe(c) && Spent(old(api.calls), api.calls, 2 * (|st.listeners| - |KeptListeners(c)|), ok)
      ensures api.res.lbs == old(api.res.lbs)
      ensures ok ==> Clean(c, api.res) && changed == (|st.listeners| > |KeptListeners(c)|)
      ensures ok ==> Pooled(c, api.res, st.listeners, |st.listeners|, st.pools)
    {
      hide Recoverable, ValidCtx, Clean, Pooled, KeptListeners, KeptPools, WellFormed, Safe;
      changed := false;
      for i := 0 to |st.listeners|
        modifies st`pools, api
        invariant Safe(c) && Clean(c, api.res) && api.res.lbs == old(api.res.lbs)
        invariant Spent(old(api.calls), api.calls, if i < |KeptListeners(c)| then 0 else 2 * (i - |KeptListeners(c)|), true)
        invariant Pooled(c, api.res, st.listeners, i, st.pools)
        invariant changed == (i > |KeptListeners(c)|)
      {
        if st.listeners[i].id in current {
          PooledAlready(c, api.res, st.listeners, i, st.pools);
          continue;
        }
        ok := AddPool(st, i, c);
        if !ok { return; }
        changed := true;
      }
      ok := true;
    }

    method AddNewPools(st: LbaasState, ghost c: Ctx) returns (ok: bool, changed: bool)
      requires Safe(c) && Clean(c, api.res) && st.lb.Some? && st.lb.value in api.res.lbs
      requires NewListeners(KeptListeners(c), c.base, AddedKeys(c), st.lb.value, st.listeners)
      requires forall l :: l in st.listeners ==> l in api.res.listeners
      requires st.pools == KeptPools(c)
      modifies st`pools, api
      ensures Safe(c) && Spent(old(api.calls), api.calls, 2 * |AddedKeys(c)|, ok)
      ensures ok ==> Clean(c, api.res) && st.lb.value in api.res.lbs && changed == (AddedKeys(c) != [])
      ensures ok ==> Pooled(c, api.res, st.listeners, |st.listeners|, st.pools)
    {
      var current := set p | p in st.pools :: p.listenerId;
      PoolsStart(c, api.res, api.next, AddedKeys(c), st.lb.value, st.listeners, current);
      hide *;
      ok, changed := PoolListeners(st, current, c);
    }

    lemma PooledAlready(c: Ctx, r: Resources, ls: seq<Listener>, i: nat, pools: seq<Pool>)
      requires Pooled(c, r, ls, i, pools) && i < |KeptListeners(c)|
      ensures Pooled(c, r, ls, i + 1, pools)
    {
    }

    lemma PoolAppended(kept: seq<Pool>, base: nat, k: nat, ls: seq<Listener>, i: nat, ps: seq<Pool>, p: Pool)
      requires k <= i < |ls| && NewPools(kept, base, k, ls[..i], ps) && OwnPool(p, ls[i]) && p.id >= base
      ensures NewPools(kept, base, k, ls[..i + 1], ps + [p])
    {
      var ps' := ps + [p];
      forall j | |kept| <= j < |ps'| ensures OwnPool(ps'[j], ls[..i + 1][k + j - |kept|]) && ps'[j].id >= base {
        if j < |ps| { assert ps'[j] == ps[j] && OwnPool(ps[j], ls[..i][k + j - |kept|]); }
      }
    }

    // ---------- new members ----------

    // The pool each port name stands for once listeners and pools are in place.
    method PoolsByName(st: LbaasState, ports: seq<PortSpec>) returns (byName: map<Option<string>, Pool>)
      requires WellFormedState(st.Value().(members := [])) && UniquePorts(ports)
      ensures forall n :: n in byName ==> KeyFor(ports, n).Some? && PoolNamed(st.pools, KeyFor(ports, n).value) == Some(byName[n])
      ensures forall n :: n !in byName ==> KeyFor(ports, n).None? || PoolNamed(st.pools, KeyFor(ports, n).value).None?
    {
      var byKey := PoolsByKey(st);
      hide WellFormedState;
      byName := map[];
      for i := 0 to |ports|
        invariant forall n :: n in byName ==> exists p :: p in ports[..i] && p.name == n && KeyOf(p) in byKey && byKey[KeyOf(p)] == byName[n]
        invariant forall p :: p in ports[..i] && KeyOf(p) in byKey ==> p.name in byName
      {
        var p := ports[i];
        if KeyOf(p) in byKey { byName := byName[p.name := byKey[KeyOf(p)]]; }
      }
      assert ports[..|ports|] == ports;
      forall n ensures n in byName ==> KeyFor(ports, n).Some? && PoolNamed(st.pools, KeyFor(ports, n).value) == Some(byName[n])
               ensures n !in byName ==> KeyFor(ports, n).None? || PoolNamed(st.pools, KeyFor(ports, n).value).None?
      {
        KeyForFacts(ports, n);
      }
    }

    method PoolsByKey(st: LbaasState) returns (byKey: map<Key, Pool>)
      requires WellFormedState(st.Value().(members := []))
      ensures forall k :: k in byKey <==> PoolNamed(st.pools, k).Some?
      ensures forall k :: k in byKey ==> PoolNamed(st.pools, k) == Some(byKey[k])
    {
      ghost var s := st.Value().(members := []);
      ghost var r := ResourcesOf(s);
      var byId: map<nat, Listener> := map[];
      for i := 0 to |st.listeners|
        invariant forall l :: l in st.listeners[..i] ==> l.id in byId
        invariant forall id :: id in byId ==> byId[id] in st.listeners && byId[id].id == id
      {
        byId := byId[st.listeners[i].id := st.listeners[i]];
      }
      assert st.listeners[..|st.listeners|] == st.listeners;
      byKey := map[];
      for i := 0 to |st.pools|
        invariant forall k :: k in byKey ==> byKey[k] in st.pools && byKey[k].name == k
        invariant forall p :: p in st.pools[..i] ==> p.name in byKey
      {
        var p := st.pools[i];
        assert p in r.pools && OnListener(p, r.listeners);
        ghost var own :| own in r.listeners && own.id == p.listenerId && own.key == p.name && own.lbId == p.lbId;
        assert own in st.listeners && own.id in byId && byId[own.id] in r.listeners;
        byKey := byKey[byId[p.listenerId].key := p];
      }
      assert st.pools[..|st.pools|] == st.pools;
      forall k ensures k in byKey <==> PoolNamed(st.pools, k).Some?
               ensures k in byKey ==> PoolNamed(st.pools, k) == Some(byKey[k])
      {
        PoolNamedFacts(st.pools, k);
        if k in byKey { PoolOfState(s, byKey[k], PoolNamed(st.pools, k).value); }
      }
    }

    // The targets of `done` have their members.
    ghost predicate Served(c: Ctx, r: Resources, pools: seq<Pool>, done: seq<Target>, members: seq<Member>) {
      && NewMembers(KeptMembers(c), c.base, Missing(done, pools, c.spec.ports, KeptMembers(c)), members)
      && (forall m :: m in members ==> m in r.members)
    }

    lemma MissingNext(done: seq<Target>, t: Target, pools: seq<Pool>, ports: seq<PortSpec>, have: seq<Member>)
      ensures Missing(done + [t], pools, ports, have) ==
              Missing(done, pools, ports, have) +
              (var p := PoolFor(pools, ports, t);
               if IsPod(t.address) && p.Some? && !HasMember(have, t.address.ip, t.port.port, p.value.id) then [Wanted(t, p.value)] else [])
    {
      assert (done + [t])[..|done|] == done;
    }

    lemma ServedSkip(c: Ctx, r: Resources, pools: seq<Pool>, done: seq<Target>, t: Target, members: seq<Member>)
      requires Served(c, r, pools, done, members)
      requires var p := PoolFor(pools, c.spec.ports, t);
               !IsPod(t.address) || p.None? || HasMember(KeptMembers(c), t.address.ip, t.port.port, p.value.id)
      ensures Served(c, r, pools, done + [t], members)
    {
      MissingNext(done, t, pools, c.spec.ports, KeptMembers(c));
    }

    lemma ServedAppend(c: Ctx, r: Resources, pools: seq<Pool>, done: seq<Target>, t: Target, p: Pool, members: seq<Member>, m: Member)
      requires Served(c, r, pools, done, members)
      requires IsPod(t.address) && PoolFor(pools, c.spec.ports, t) == Some(p) && !HasMember(KeptMembers(c), t.address.ip, t.port.port, p.id)
      requires m in r.members && Serves(m, Wanted(t, p)) && m.id >= c.base
      ensures Served(c, r, pools, done + [t], members + [m])
    {
      MissingNext(done, t, pools, c.spec.ports, KeptMembers(c));
      var ws := Missing(done, pools, c.spec.ports, KeptMembers(c));
      NewMemberAppended(KeptMembers(c), c.base, ws, members, Wanted(t, p), m);
    }

    lemma NewMemberAppended(kept: seq<Member>, base: nat, ws: seq<Wanted>, ms: seq<Member>, w: Wanted, m: Member)
      requires NewMembers(kept, base, ws, ms) && Serves(m, w) && m.id >= base
      ensures NewMembers(kept, base, ws + [w], ms + [m])
    {
    }

    lemma ServedStays(c: Ctx, r: Resources, r': Resources, pools: seq<Pool>, done: seq<Target>, members: seq<Member>)
      requires Served(c, r, pools, done, members) && r.members <= r'.members
      ensures Served(c, r', pools, done, members)
    {
    }

    // Whatever sits on the pool, address and port of a target that is not kept
    // was created for that very target, under its name.
    lemma NoOtherName(c: Ctx, r: Resources, next: nat, t: Target, p: Pool, m: Member)
      requires Recoverable(c, r, next) && Clean(c, r) && m in r.members && p in r.pools
      requires t in AllTargets(c.subsets) && IsPod(t.address) && KeyFor(c.spec.ports, t.port.name) == Some(p.name)
      requires m.poolId == p.id && m.ip == t.address.ip && m.port == t.port.port
      requires !HasMember(KeptMembers(c), m.ip, m.port, m.poolId)
      ensures m.name == MemberName(t.address.ref.value, t.port.port) && m.id >= c.base
    {
      assert m !in KeptMembers(c);
      SavedBelow(c);
      var u, q :| q in r.pools && Feeds(c, u, q) && Serves(m, Wanted(u, q));
      assert p == q;
      KeyForInjective(c.spec.ports, t.port.name, u.port.name);
      SameTarget(AllTargets(c.subsets), t, u);
    }

    lemma FeedsHere(c: Ctx, r: Resources, next: nat, pools: seq<Pool>, t: Target, p: Pool)
      requires Recoverable(c, r, next) && Clean(c, r) && p in pools && (forall x :: x in pools ==> x in r.pools)
      requires t in AllTargets(c.subsets) && IsPod(t.address) && PoolFor(pools, c.spec.ports, t) == Some(p)
      ensures Feeds(c, t, p) && KeyFor(c.spec.ports, t.port.name) == Some(p.name) && p in r.pools
    {
      PoolNamedFacts(pools, KeyFor(c.spec.ports, t.port.name).value);
    }

    // The member Octavia answers with, found or just created, is the target's.
    lemma MemberAnswered(c: Ctx, r: Resources, n: nat, r': Resources, n': nat, pools: seq<Pool>, done: seq<Target>,
                         t: Target, p: Pool, members: seq<Member>, m: Member)
      requires Recoverable(c, r, n) && Clean(c, r) && HasPods(c.subsets)
      requires t in AllTargets(c.subsets) && IsPod(t.address)
      requires Served(c, r, pools, done, members)
      requires PoolFor(pools, c.spec.ports, t) == Some(p) && !HasMember(KeptMembers(c), t.address.ip, t.port.port, p.id)
      requires p in pools && forall x :: x in pools ==> x in r.pools
      requires Serves(m, Wanted(t, p))
      requires || (r' == r && n' == n && m in r.members)
               || (m.id == n && n' == n + 1 && r' == r.(members := r.members + {m})
                   && forall x :: x in r.members ==> !(x.poolId == m.poolId && x.ip == m.ip && x.port == m.port))
      ensures Recoverable(c, r', n') && Clean(c, r') && Served(c, r', pools, done + [t], members + [m])
    {
      hide Recoverable, Clean, Served, HasMember, PoolFor, KeptMembers, Feeds, AllTargets, HasPods, KeyFor, ValidCtx, MemberName;
      FeedsHere(c, r, n, pools, t, p);
      if r' != r {
        AddMemberRecoverable(c, r, n, t, p, m);
        ServedStays(c, r, r', pools, done, members);
      }
      NoOtherName(c, r', n', t, p, m);
      ServedAppend(c, r', pools, done, t, p, members, m);
    }

    // The member of one pod-backed target.
    method AddMember(st: LbaasState, pool: Pool, ref: TargetRef, ip: string, port: int, ghost t: Target, ghost c: Ctx, ghost done: seq<Target>)
      returns (ok: bool)
      requires Safe(c) && Clean(c, api.res) && HasPods(c.subsets) && t in AllTargets(c.subsets)
      requires t.address == Address(ip, Some(ref)) && t.port.port == port && ref.kind == "Pod"
      requires Served(c, api.res, st.pools, done, st.members)
      requires PoolFor(st.pools, c.spec.ports, t) == Some(pool) && !HasMember(KeptMembers(c), ip, port, pool.id)
      requires pool in st.pools && forall p :: p in st.pools ==> p in api.res.pools
      modifies st`members, api
      ensures Safe(c) && Clean(c, api.res) && Spent(old(api.calls), api.calls, 2, ok)
      ensures api.res.lbs == old(api.res.lbs) && api.res.listeners == old(api.res.listeners) && api.res.pools == old(api.res.pools)
      ensures ok ==> Served(c, api.res, st.pools, done + [t], st.members) && |st.members| == |old(st.members)| + 1
    {
      hide Recoverable, ValidCtx, Clean, Served, HasMember, PoolFor, KeptMembers, Feeds, MemberName, WellFormed, KeyFor, AllTargets, HasPods;
      FeedsHere(c, api.res, api.next, st.pools, t, pool);
      ghost var r, n := api.res, api.next;
      var reply := api.EnsureMember(pool, ref, ip, port);
      if reply.CutOff? { return false; }
      if reply.NotFound? {
        ghost var m :| m in r.members && m.poolId == pool.id && m.ip == ip && m.port == port && m.name != MemberName(ref, port);
        NoOtherName(c, r, n, t, pool, m);
        assert false;
      }
      MemberAnswered(c, r, n, api.res, api.next, st.pools, done, t, pool, st.members, reply.value);
      st.members := st.members + [reply.value];
      return true;
    }

    // No port of an address that is not backed by a pod gets a member; nor
    // does any when no port name has a pool.
    lemma ServedSkipAddress(c: Ctx, r: Resources, pools: seq<Pool>, done: seq<Target>, a: Address, ports: seq<EndpointPort>, members: seq<Member>)
      requires Served(c, r, pools, done, members)
      requires !IsPod(a) || forall t :: PoolFor(pools, c.spec.ports, t).None?
      ensures Served(c, r, pools, done + AddressTargets(a, ports), members)
    {
      if ports == [] {
        assert done + [] == done;
      } else {
        var init := ports[..|ports| - 1];
        var t := Target(a, ports[|ports| - 1]);
        ServedSkipAddress(c, r, pools, done, a, init, members);
        ServedSkip(c, r, pools, done + AddressTargets(a, init), t, members);
        assert done + AddressTargets(a, ports) == done + AddressTargets(a, init) + [t];
      }
    }

    // What the loops over subsets, addresses and ports rely on throughout.
    ghost predicate Adding(c: Ctx, st: LbaasState, done: seq<Target>)
      reads api, st
    {
      && Safe(c) && Clean(c, api.res) && HasPods(c.subsets)
      && Served(c, api.res, st.pools, done, st.members)
      && (forall p :: p in st.pools ==> p in api.res.pools)
    }

    ghost predicate Indexes(c: Ctx, pools: seq<Pool>, byName: map<Option<string>, Pool>, current: set<(string, int, nat)>) {
      && (forall t: Target :: t.port.name in byName ==> PoolFor(pools, c.spec.ports, t) == Some(byName[t.port.name]) && byName[t.port.name] in pools)
      && (forall t: Target :: t.port.name !in byName ==> PoolFor(pools, c.spec.ports, t).None?)
      && (forall ip, port, id: nat :: (ip, port, id) in current <==> HasMember(KeptMembers(c), ip, port, id))
    }

    lemma NoIndexes(c: Ctx, pools: seq<Pool>, byName: map<Option<string>, Pool>, current: set<(string, int, nat)>)
      requires Indexes(c, pools, byName, current) && byName == map[]
      ensures forall t: Target :: PoolFor(pools, c.spec.ports, t).None?
    {
      hide PoolFor;
    }

    method AddMembersAt(st: LbaasState, a: Address, ports: seq<EndpointPort>, byName: map<Option<string>, Pool>,
                        current: set<(string, int, nat)>, ghost c: Ctx, ghost done: seq<Target>)
      returns (ok: bool, changed: bool)
      requires Adding(c, st, done) && Indexes(c, st.pools, byName, current)
      requires forall p :: p in ports ==> Target(a, p) in AllTargets(c.subsets)
      modifies st`members, api
      ensures Safe(c) && Spent(old(api.calls), api.calls, 2 * |AddressTargets(a, ports)|, ok)
      ensures api.res.lbs == old(api.res.lbs) && api.res.listeners == old(api.res.listeners) && api.res.pools == old(api.res.pools)
      ensures ok ==> Adding(c, st, done + AddressTargets(a, ports))
      ensures ok ==> |st.members| >= |old(st.members)| && changed == (|st.members| != |old(st.members)|)
    {
      hide Recoverable, ValidCtx, Clean, Served, Indexes, HasPods, AllTargets, PoolFor;
      if a.ref.None? || a.ref.value.kind != "Pod" || byName == map[] {
        if byName == map[] { NoIndexes(c, st.pools, byName, current); }
        ServedSkipAddress(c, api.res, st.pools, done, a, ports, st.members);
        return true, false;
      }
      changed := false;
      assert done + AddressTargets(a, ports[..0]) == done;
      for k := 0 to |ports|
        modifies st`members, api
        invariant Adding(c, st, done + AddressTargets(a, ports[..k]))
        invariant Spent(old(api.calls), api.calls, 2 * |AddressTargets(a, ports[..k])|, true)
        invariant api.res.lbs == old(api.res.lbs) && api.res.listeners == old(api.res.listeners) && api.res.pools == old(api.res.pools)
        invariant |st.members| >= |old(st.members)| && changed == (|st.members| != |old(st.members)|)
      {
        var added: bool;
        AddressTargetsCount(a, ports, k);
        ok, added := AddMemberAtPort(st, a, ports[k], byName, current, c, done + AddressTargets(a, ports[..k]));
        if !ok { return; }
        changed := changed || added;
        assert ports[..k + 1][..k] == ports[..k];
        assert |AddressTargets(a, ports[..k + 1])| == |AddressTargets(a, ports[..k])| + 1;
        assert done + AddressTargets(a, ports[..k + 1]) == done + AddressTargets(a, ports[..k]) + [Target(a, ports[k])];
      }
      assert ports[..|ports|] == ports;
      ok := true;
    }

    method AddMemberAtPort(st: LbaasState, a: Address, p: EndpointPort, byName: map<Option<string>, Pool>,
                           current: set<(string, int, nat)>, ghost c: Ctx, ghost done: seq<Target>)
      returns (ok: bool, added: bool)
      requires Adding(c, st, done) && Indexes(c, st.pools, byName, current) && IsPod(a)
      requires Target(a, p) in AllTargets(c.subsets)
      modifies st`members, api
      ensures Safe(c) && Spent(old(api.calls), api.calls, 2, ok)
      ensures api.res.lbs == old(api.res.lbs) && api.res.listeners == old(api.res.listeners) && api.res.pools == old(api.res.pools)
      ensures ok ==> Adding(c, st, done + [Target(a, p)])
      ensures ok ==> |st.members| == |old(st.members)| + if added then 1 else 0
    {
      ghost var t := Target(a, p);
      hide Recoverable, ValidCtx, Clean, HasMember, PoolFor, KeptMembers;
      if p.name !in byName {
        ServedSkip(c, api.res, st.pools, done, t, st.members);
        return true, false;
      }
      var pool := byName[p.name];
      if (a.ip, p.port, pool.id) in current {
        ServedSkip(c, api.res, st.pools, done, t, st.members);
        return true, false;
      }
      ok := AddMember(st, pool, a.ref.value, a.ip, p.port, t, c, done);
      added := ok;
    }

    method AddMembersOf(st: LbaasState, subset: Subset, byName: map<Option<string>, Pool>,
                        current: set<(string, int, nat)>, ghost c: Ctx, ghost done: seq<Target>)
      returns (ok: bool, changed: bool)
      requires Adding(c, st, done) && Indexes(c, st.pools, byName, current)
      requires forall a, p :: a in AddressesOf(subset) && p in PortsOf(subset) ==> Target(a, p) in AllTargets(c.subsets)
      modifies st`members, api
      ensures Safe(c) && Spent(old(api.calls), api.calls, 2 * |SubsetTargets(AddressesOf(subset), PortsOf(subset))|, ok)
      ensures api.res.lbs == old(api.res.lbs) && api.res.listeners == old(api.res.listeners) && api.res.pools == old(api.res.pools)
      ensures ok ==> Adding(c, st, done + SubsetTargets(AddressesOf(subset), PortsOf(subset)))
      ensures ok ==> |st.members| >= |old(st.members)| && changed == (|st.members| != |old(st.members)|)
    {
      hide Recoverable, ValidCtx, Clean, Served, Indexes, HasPods, AllTargets, AddressTargets;
      changed := false;
      var addrs, ports := AddressesOf(subset), PortsOf(subset);
      assert done + SubsetTargets(addrs[..0], ports) == done;
      for j := 0 to |addrs|
        modifies st`members, api
        invariant Adding(c, st, done + SubsetTargets(addrs[..j], ports))
        invariant Spent(old(api.calls), api.calls, 2 * |SubsetTargets(addrs[..j], ports)|, true)
        invariant api.res.lbs == old(api.res.lbs) && api.res.listeners == old(api.res.listeners) && api.res.pools == old(api.res.pools)
        invariant |st.members| >= |old(st.members)| && changed == (|st.members| != |old(st.members)|)
      {
        var added: bool;
        SubsetTargetsCount(addrs, ports, j);
        ok, added := AddMembersAt(st, addrs[j], ports, byName, current, c, done + SubsetTargets(addrs[..j], ports));
        if !ok { return; }
        changed := changed || added;
        assert addrs[..j + 1][..j] == addrs[..j];
        assert done + SubsetTargets(addrs[..j + 1], ports)
            == done + SubsetTargets(addrs[..j], ports) + AddressTargets(addrs[j], ports);
      }
      assert addrs[..|addrs|] == addrs;
      ok := true;
    }

    lemma {:induction false} AddressTargetsCount(a: Address, ports: seq<EndpointPort>, k: nat)
      requires k < |ports|
      ensures |AddressTargets(a, ports[..k])| + 1 <= |AddressTargets(a, ports)|
    {
      if k < |ports| - 1 {
        AddressTargetsCount(a, ports[..|ports| - 1], k);
        assert ports[..|ports| - 1][..k] == ports[..k];
      }
    }

    lemma {:induction false} SubsetTargetsCount(addrs: seq<Address>, ports: seq<EndpointPort>, j: nat)
      requires j < |addrs|
      ensures |SubsetTargets(addrs[..j], ports)| + |AddressTargets(addrs[j], ports)| <= |SubsetTargets(addrs, ports)|
    {
      if j < |addrs| - 1 {
        SubsetTargetsCount(addrs[..|addrs| - 1], ports, j);
        assert addrs[..|addrs| - 1][..j] == addrs[..j];
      }
    }

    lemma {:induction false} AllTargetsCount(subsets: seq<Subset>, i: nat)
      requires i < |subsets|
      ensures |AllTargets(subsets[..i])| + |SubsetTargets(AddressesOf(subsets[i]), PortsOf(subsets[i]))| <= |AllTargets(subsets)|
    {
      if i < |subsets| - 1 {
        AllTargetsCount(subsets[..|subsets| - 1], i);
        assert subsets[..|subsets| - 1][..i] == subsets[..i];
      }
    }

    lemma {:induction false} AddressTargetsThere(a: Address, ports: seq<EndpointPort>)
      ensures forall p :: p in ports ==> Target(a, p) in AddressTargets(a, ports)
    {
      if ports != [] {
        AddressTargetsThere(a, ports[..|ports| - 1]);
        assert ports == ports[..|ports| - 1] + [ports[|ports| - 1]];
      }
    }

    lemma {:induction false} SubsetTargetsThere(addrs: seq<Address>, ports: seq<EndpointPort>)
      ensures forall a, p :: a in addrs && p in ports ==> Target(a, p) in SubsetTargets(addrs, ports)
    {
      if addrs != [] {
        SubsetTargetsThere(addrs[..|addrs| - 1], ports);
        AddressTargetsThere(addrs[|addrs| - 1], ports);
        assert addrs == addrs[..|addrs| - 1] + [addrs[|addrs| - 1]];
      }
    }

    lemma {:induction false} AllTargetsThere(subsets: seq<Subset>)
      ensures forall s, a, p :: s in subsets && a in AddressesOf(s) && p in PortsOf(s) ==> Target(a, p) in AllTargets(subsets)
    {
      if subsets != [] {
        var last := subsets[|subsets| - 1];
        AllTargetsThere(subsets[..|subsets| - 1]);
        SubsetTargetsThere(AddressesOf(last), PortsOf(last));
        assert subsets == subsets[..|subsets| - 1] + [last];
      }
    }

    method BuildIndexes(st: LbaasState, spec: ServiceSpec, ghost c: Ctx)
      returns (byName: map<Option<string>, Pool>, current: set<(string, int, nat)>)
      requires Safe(c) && c.spec == spec && WellFormedState(st.Value().(members := [])) && st.members == KeptMembers(c)
      ensures Indexes(c, st.pools, byName, current)
    {
      CtxParts(c);
      hide ValidCtx, Recoverable, WellFormedState, UniquePorts, KeptMembers, Indexes;
      byName := PoolsByName(st, spec.ports);
      current := set m | m in st.members :: (m.ip, m.port, m.poolId);
      IndexesHold(c, st.pools, st.members, byName, current);
    }

    lemma IndexesHold(c: Ctx, pools: seq<Pool>, members: seq<Member>, byName: map<Option<string>, Pool>, current: set<(string, int, nat)>)
      requires forall n :: n in byName ==>
                 KeyFor(c.spec.ports, n).Some? && PoolNamed(pools, KeyFor(c.spec.ports, n).value) == Some(byName[n])
      requires forall n :: n !in byName ==> KeyFor(c.spec.ports, n).None? || PoolNamed(pools, KeyFor(c.spec.ports, n).value).None?
      requires members == KeptMembers(c) && current == set m | m in members :: (m.ip, m.port, m.poolId)
      ensures Indexes(c, pools, byName, current)
    {
      hide KeptMembers, KeyFor, PoolNamed;
      forall n | n in byName ensures byName[n] in pools { PoolNamedFacts(pools, KeyFor(c.spec.ports, n).value); }
      forall ip, port, id: nat ensures (ip, port, id) in current <==> HasMember(members, ip, port, id) {}
    }

    method AddNewMembers(st: LbaasState, spec: ServiceSpec, subsets: seq<Subset>, ghost c: Ctx) returns (ok: bool, changed: bool)
      requires Safe(c) && c.spec == spec && c.subsets == subsets && HasPods(subsets)
      requires Standing(c, api.res, api.next, st.Value()) && st.members == KeptMembers(c)
      modifies st`members, api
      ensures Safe(c) && Spent(old(api.calls), api.calls, 2 * |AllTargets(subsets)|, ok)
      ensures ok ==> Completed(c, api.res, api.next, st.Value())
      ensures ok ==> changed == (MissingFrom(c, st.pools) != [])
    {
      hide Recoverable, ValidCtx, WellFormedState, WellFormed, HasPods, KeptMembers;
      StandingIsWellFormed(c, api.res, api.next, st.Value());
      KeptThere(c, api.res, api.next);
      var byName, current := BuildIndexes(st, spec, c);
      AllTargetsThere(subsets);
      assert Adding(c, st, []);
      ok, changed := AddMembersOfAll(st, subsets, byName, current, c);
    }

    method AddMembersOfAll(st: LbaasState, subsets: seq<Subset>, byName: map<Option<string>, Pool>,
                           current: set<(string, int, nat)>, ghost c: Ctx)
      returns (ok: bool, changed: bool)
      requires Adding(c, st, []) && Indexes(c, st.pools, byName, current) && subsets == c.subsets
      modifies st`members, api
      ensures Safe(c) && Spent(old(api.calls), api.calls, 2 * |AllTargets(subsets)|, ok)
      ensures api.res.lbs == old(api.res.lbs) && api.res.listeners == old(api.res.listeners) && api.res.pools == old(api.res.pools)
      ensures ok ==> Adding(c, st, AllTargets(subsets))
      ensures ok ==> |st.members| >= |old(st.members)| && changed == (|st.members| != |old(st.members)|)
    {
      hide Recoverable, ValidCtx, Clean, Served, Indexes, HasPods, SubsetTargets;
      AllTargetsThere(subsets);
      changed := false;
      for i := 0 to |subsets|
        modifies st`members, api
        invariant Adding(c, st, AllTargets(subsets[..i]))
        invariant Spent(old(api.calls), api.calls, 2 * |AllTargets(subsets[..i])|, true)
        invariant api.res.lbs == old(api.res.lbs) && api.res.listeners == old(api.res.listeners) && api.res.pools == old(api.res.pools)
        invariant |st.members| >= |old(st.members)| && changed == (|st.members| != |old(st.members)|)
      {
        var added: bool;
        AllTargetsCount(subsets, i);
        ok, added := AddMembersOf(st, subsets[i], byName, current, c, AllTargets(subsets[..i]));
        if !ok { return; }
        changed := changed || added;
        assert subsets[..i + 1][..i] == subsets[..i];
      }
      assert subsets[..|subsets|] == subsets;
      ok := true;
    }

    // ---------- one reconciliation ----------

    method SyncListeners(st: LbaasState, spec: ServiceSpec, ghost c: Ctx) returns (o: Outcome, changed: bool)
      requires Safe(c) && c.spec == spec && st.Value() == c.s0.(pools := P1(c), members := M2(c))
      requires CleanMembers(c, api.res) && CleanPools(c, api.res)
      modifies st, api
      ensures Safe(c) && Spent(old(api.calls), api.calls, 2 * |c.s0.listeners| + 3 + 2 * |spec.ports|, !o.CutShort?)
      ensures Ends(LostLb(c, old(api.res)), LostLb(c, api.res), o)
      ensures o.Done? ==> Clean(c, api.res) && st.lb.Some? && st.lb.value in api.res.lbs && st.lb.value.ip == spec.ip
                          && (SameLb(c) ==> st.lb == c.s0.lb)
      ensures o.Done? ==> NewListeners(KeptListeners(c), c.base, AddedKeys(c), st.lb.value, st.listeners)
      ensures o.Done? ==> forall l :: l in st.listeners ==> l in api.res.listeners
      ensures o.Done? ==> st.pools == KeptPools(c) && st.members == KeptMembers(c)
      ensures o.Done? ==> changed == (UnusedListeners(c) != {} || !SameLb(c) || AddedKeys(c) != [])
    {
      hide Recoverable, ValidCtx, Clean, CleanMembers, CleanPools, CleanListeners, KeptListeners, KeptPools, KeptMembers;
      hide UnusedListeners, AddedKeys, NewListeners, SameLb, P1, M2, L1;
      var removed, replaced, added, ok;
      o, removed := RemoveUnusedListeners(st, c);
      if !o.Done? { return o, false; }
      if SameLb(c) { SameLbIsClean(c, api.res, api.next); }
      ok, replaced := SyncLoadBalancer(st, spec, c);
      if !ok { return CutShort, false; }
      ok, added := AddNewListeners(st, spec, c);
      return if ok then Done else CutShort, removed || replaced || added;
    }

    // A run crashes only when it is stuck, and one that is stuck never gets
    // through and leaves the next one stuck, too.
    static ghost predicate Ends(stuck: bool, still: bool, o: Outcome) {
      (o.Crashed? ==> stuck) && (stuck ==> !o.Done? && still)
    }

    lemma PooledIsStanding(c: Ctx, r: Resources, next: nat, s: State)
      requires Recoverable(c, r, next) && Clean(c, r) && s.lb.Some? && s.lb.value in r.lbs && s.lb.value.ip == c.spec.ip
      requires SameLb(c) ==> s.lb == c.s0.lb
      requires NewListeners(KeptListeners(c), c.base, AddedKeys(c), s.lb.value, s.listeners)
      requires Pooled(c, r, s.listeners, |s.listeners|, s.pools)
      ensures Standing(c, r, next, s)
    {
      hide Recoverable, Clean, KeptPools, KeptListeners, AddedKeys, SameLb;
      assert s.listeners[..|s.listeners|] == s.listeners;
    }

    method SyncPools(st: LbaasState, spec: ServiceSpec, ghost c: Ctx) returns (o: Outcome, changed: bool)
      requires Safe(c) && c.spec == spec && st.Value() == c.s0.(members := M1(c))
      requires CleanMembers(c, api.res)
      modifies st, api
      ensures Safe(c) && Ends(LostLb(c, old(api.res)), LostLb(c, api.res), o)
      ensures Spent(old(api.calls), api.calls, |c.s0.pools| + 2 * |c.s0.listeners| + 3 + 4 * |spec.ports|, !o.CutShort?)
      ensures o.Done? ==> Standing(c, api.res, api.next, st.Value()) && st.members == KeptMembers(c)
      ensures o.Done? ==> changed == (UnusedPools(c) != {} || UnusedListeners(c) != {} || !SameLb(c) || AddedKeys(c) != [])
    {
      AddedKeysCount(c);
      hide Recoverable, ValidCtx, Clean, CleanMembers, CleanPools, KeptListeners, KeptPools, KeptMembers;
      hide UnusedPools, UnusedListeners, AddedKeys, NewListeners, Pooled, Standing, SameLb, M1, M2, P1;
      var removed, synced, added, ok;
      ok, removed := RemoveUnusedPools(st, spec, c);
      if !ok { return CutShort, false; }
      o, synced := SyncListeners(st, spec, c);
      if !o.Done? { return o, false; }
      ok, added := AddNewPools(st, c);
      if !ok { return CutShort, false; }
      PooledIsStanding(c, api.res, api.next, st.Value());
      changed := removed || synced || added;
    }

    lemma AddedKeysCount(c: Ctx)
      ensures |AddedKeys(c)| <= |c.spec.ports|
    {
      SortedCount(c.spec.ports);
      NewKeysCount(Keys(KeptListeners(c)), SortByProtocol(c.spec.ports), c.cfg);
    }

    lemma {:induction false} NewKeysCount(have: seq<Key>, ports: seq<PortSpec>, cfg: Config)
      ensures |NewKeys(have, ports, cfg)| <= |ports|
    {
      if ports != [] { NewKeysCount(have, ports[..|ports| - 1], cfg); }
    }

    // One reconciliation. It is cut short only for want of calls, which does
    // not happen with `CallsEnough`, and crashes only when it is stuck, at once
    // if the Endpoints object cannot be read; what it leaves behind is still
    // recoverable from the saved state. When it completes, state and Octavia
    // agree, and it reports whether it did anything.
    method SyncMembers(st: LbaasState, spec: ServiceSpec, subsets: seq<Subset>, ghost c: Ctx) returns (o: Outcome, changed: bool)
      requires Safe(c) && st.Value() == c.s0 && c.spec == spec && c.subsets == subsets
      modifies st, api
      ensures Safe(c) && Spent(old(api.calls), api.calls, CallsEnough(c), !o.CutShort?)
      ensures Ends(Stuck(c, old(api.res)), Stuck(c, api.res), o)
      ensures old(api.calls) >= CallsEnough(c) ==> (o.Done? <==> !Stuck(c, old(api.res))) && (o.Crashed? <==> Stuck(c, old(api.res)))
      ensures Unreadable(c) ==> o.Crashed? && st.Value() == c.s0 && api.res == old(api.res) && api.calls == old(api.calls)
      ensures o.Done? ==> Completed(c, api.res, api.next, st.Value())
      ensures o.Done? ==> Reconciled(c, st.Value()) && ResourcesOf(st.Value()) == api.res && WellFormedState(st.Value())
      ensures o.Done? ==> changed == Work(c, st.Value())
    {
      hide Recoverable, ValidCtx, UnusedListeners, UnusedMembers, UnusedPools, Completed, Standing, Reconciled, WellFormedState, HasPods, SameLb;
      hide MissingFrom, AddedKeys, KeptMembers, M1, CleanMembers, Incomplete;
      var removed, synced, added, ok := false, false, false, true;
      if HasPods(subsets) {
        o, removed := RemoveUnusedMembers(st, spec, subsets, c);
        if !o.Done? { return o, false; }
      } else {
        NoPodsNoneUnused(c, api.res);
      }
      o, synced := SyncPools(st, spec, c);
      if !o.Done? { return o, false; }
      if HasPods(subsets) {
        ok, added := AddNewMembers(st, spec, subsets, c);
        if !ok { return CutShort, false; }
      } else {
        NothingToAdd(c, api.res, api.next, st.Value());
      }
      CompletedIsConsistent(c, api.res, api.next, st.Value());
      CompletedIsReconciled(c, api.res, api.next, st.Value());
      changed := removed || synced || added;
    }

    lemma NothingToAdd(c: Ctx, r: Resources, next: nat, s: State)
      requires Standing(c, r, next, s) && s.members == KeptMembers(c) && !HasPods(c.subsets)
      ensures Completed(c, r, next, s) && MissingFrom(c, s.pools) == []
    {
      KeptThere(c, r, next);
    }

    // Without a pod-backed address no member is looked at.
    lemma NoPodsNoneUnused(c: Ctx, r: Resources)
      requires !HasPods(c.subsets)
      ensures UnusedMembers(c) == {} && M1(c) == c.s0.members && CleanMembers(c, r)
    {
      ExceptAll(c.s0.members, MemberId, UnusedMembers(c));
    }

    lemma CompletedIsReconciled(c: Ctx, r: Resources, next: nat, s: State)
      requires Completed(c, r, next, s)
      ensures Reconciled(c, s)
    {
    }

    // ---------- restarts ----------

    // Stuck is exactly an input that cannot be read, in every state, and one
    // that may lose its load balancer too early, once that is gone.
    lemma StuckIff(c: Ctx, r: Resources, next: nat)
      requires Recoverable(c, r, next)
      ensures Stuck(c, r) <==> Unreadable(c) || (MayLoseLb(c) && c.s0.lb.value !in r.lbs)
    {
    }

    lemma RecoverableIsValid(c: Ctx, r: Resources, next: nat)
      requires Recoverable(c, r, next)
      ensures ValidCtx(c)
    {
    }

    // Cut off after the release of its load balancer, every such input is stuck.
    lemma StuckOnceReleased(c: Ctx, r: Resources, next: nat)
      requires Recoverable(c, r, next) && MayLoseLb(c)
      ensures var r' := DelLb(r, c.s0.lb.value.id);
              Recoverable(c, r', next) && LostLb(c, r')
    {
      DelLbRecoverable(c, r, next);
    }

    // A saved web service, and an Endpoints object with one ready pod.
    static ghost predicate WebService(s: State) {
      s == State(Some(LoadBalancer(0, "10.0.0.1")), [Listener(1, 0, Key(TCP, 80))], [Pool(2, 0, 1, Key(TCP, 80))], [])
    }

    static function WebPod(port: int): Subset {
      Subset(Some([Address("10.1.0.1", Some(TargetRef("Pod", "ns", "web")))]), Some([EndpointPort(None, port)]))
    }

    lemma WebPodTargets(port: int)
      ensures AllTargets([WebPod(port)]) == [Target(AddressesOf(WebPod(port))[0], EndpointPort(None, port))]
    {
      var s := WebPod(port);
      var a, p := AddressesOf(s)[0], EndpointPort(None, port);
      assert [p][..0] == [] && [a][..0] == [] && [s][..0] == [];
      assert AddressTargets(a, [p]) == [Target(a, p)];
      assert SubsetTargets([a], [p]) == [Target(a, p)];
    }

    lemma WebPodIsValid(spec: ServiceSpec, subsets: seq<Subset>, port: int)
      requires |spec.ports| == 1 && AllTargets(subsets) == AllTargets([WebPod(port)]) && WebPod(port) in subsets
      ensures ValidInput(spec, subsets) && HasPods(subsets)
    {
      WebPodTargets(port);
      hide AllTargets;
      assert IsPod(AddressesOf(WebPod(port))[0]);
    }

    // The service moves to another address and another port: cut off after the
    // release of its load balancer, no later run gets through.
    lemma MovedServiceIsStuck(c: Ctx)
      requires WebService(c.s0) && c.spec == ServiceSpec("10.0.0.2", [PortSpec(None, TCP, 81)])
      requires c.subsets == [WebPod(8080)] && c.base == 3 && !c.cfg.sgCreate
      ensures ValidCtx(c) && HasPods(c.subsets) && MayLoseLb(c)
      ensures Recoverable(c, ResourcesOf(c.s0), 3) && !Stuck(c, ResourcesOf(c.s0))
      ensures Recoverable(c, Resources({}, {}, {}, {}), 3) && Stuck(c, Resources({}, {}, {}, {}))
    {
      hide Recoverable, WellFormedState, ValidInput, UnusedListeners, HasPods, Incomplete, WebPod;
      MovedServiceIsValid(c);
      ConsistentIsRecoverable(c, 3);
      DelLbRecoverable(c, ResourcesOf(c.s0), 3);
      assert DelLb(ResourcesOf(c.s0), 0) == Resources({}, {}, {}, {});
    }

    lemma MovedServiceIsValid(c: Ctx)
      requires WebService(c.s0) && c.spec == ServiceSpec("10.0.0.2", [PortSpec(None, TCP, 81)])
      requires c.subsets == [WebPod(8080)] && c.base == 3
      ensures ValidCtx(c) && HasPods(c.subsets) && !Unreadable(c) && !SameLb(c) && UnusedListeners(c) != {}
    {
      assert "10.0.0.1"[7] != "10.0.0.2"[7];
      WebPodIsValid(c.spec, c.subsets, 8080);
      MovedStateIsWellFormed(c.s0);
      hide WellFormed, WellFormedState, ValidInput, HasPods, AllTargets;
      KeptFacts(c);
      assert c.s0.listeners[0].id in UnusedListeners(c);
    }

    // Of the pods of two versions on different ports one is not ready: its
    // subset has no addresses, and no run gets through, not even the first.
    lemma NotReadyIsStuck(c: Ctx)
      requires c.s0 == State(None, [], [], []) && c.spec == ServiceSpec("10.0.0.2", [PortSpec(None, TCP, 81)])
      requires c.subsets == [WebPod(8080), Subset(None, Some([EndpointPort(None, 9090)]))]
      ensures ValidCtx(c) && HasPods(c.subsets)
      ensures Recoverable(c, ResourcesOf(c.s0), c.base) && Stuck(c, ResourcesOf(c.s0)) && !MayLoseLb(c)
    {
      assert c.subsets[..1] == [WebPod(8080)];
      WebPodIsValid(c.spec, c.subsets, 8080);
      assert CannotRead(c.subsets[1]);
      hide HasPods, AllTargets, ValidInput;
      ConsistentIsRecoverable(c, c.base);
    }

    lemma MovedStateIsWellFormed(s: State)
      requires WebService(s)
      ensures WellFormedState(s) && Below(ResourcesOf(s), 3)
    {
      assert LoadBalancer(0, "10.0.0.1") in ResourcesOf(s).lbs && s.listeners[0] in ResourcesOf(s).listeners;
    }

    // Some run has enough calls.
    static ghost predicate SomeEnough(c: Ctx, budgets: seq<nat>) {
      exists i :: 0 <= i < |budgets| && budgets[i] >= CallsEnough(c)
    }

    lemma SomeEnoughNext(c: Ctx, budgets: seq<nat>, n: nat)
      requires n < |budgets|
      ensures SomeEnough(c, budgets[..n + 1]) <==> SomeEnough(c, budgets[..n]) || budgets[n] >= CallsEnough(c)
      ensures budgets[n] >= CallsEnough(c) ==> SomeEnough(c, budgets)
    {
      var now, next := budgets[..n], budgets[..n + 1];
      if SomeEnough(c, now) {
        var i :| 0 <= i < n && now[i] >= CallsEnough(c);
        assert next[i] == now[i];
      }
      if SomeEnough(c, next) {
        var i :| 0 <= i < n + 1 && next[i] >= CallsEnough(c);
        assert i < n ==> now[i] == next[i];
      }
      assert next[n] == budgets[n];
    }

    // One run from the saved state, with the calls it is given.
    method Restart(saved: State, spec: ServiceSpec, subsets: seq<Subset>, budget: nat, ghost c: Ctx) returns (ok: bool, st: LbaasState)
      requires Safe(c) && c == Ctx(saved, c.base, spec, subsets, cfg)
      modifies api
      ensures fresh(st) && Safe(c)
      ensures ok ==> Reconciled(c, st.Value()) && ResourcesOf(st.Value()) == api.res && WellFormedState(st.Value())
      ensures Stuck(c, old(api.res)) ==> !ok && Stuck(c, api.res)
      ensures Unreadable(c) ==> !ok && api.res == old(api.res)
      ensures budget >= CallsEnough(c) ==> (ok <==> !Stuck(c, old(api.res)))
    {
      hide Recoverable, ValidCtx, Stuck, Unreadable, CallsEnough, Reconciled, WellFormedState, Completed, Work, ResourcesOf;
      api.calls := budget;
      st := new LbaasState(saved);
      var o, changed := SyncMembers(st, spec, subsets, c);
      ok := o.Done?;
    }

    // The controller dies after `budgets[0]` calls, restarts from the saved
    // state, dies again, and so on, until a run gets through. That run ends
    // exactly as an uninterrupted one: the kept lists followed by the same
    // additions, with nothing else left in Octavia. Restarts from resources
    // that are stuck never get there, and with an input that cannot be read
    // they change nothing; any other first run with enough calls gets there, and
    // an input that cannot get stuck does with the first run, early or late,
    // that has enough calls.
    method SyncWithRestarts(saved: State, spec: ServiceSpec, subsets: seq<Subset>, budgets: seq<nat>, ghost base: nat)
      returns (ok: bool, st: LbaasState)
      requires Recoverable(Ctx(saved, base, spec, subsets, cfg), api.res, api.next)
      modifies api
      ensures fresh(st)
      ensures var c := Ctx(saved, base, spec, subsets, cfg);
              && Safe(c)
              && (ok ==> Reconciled(c, st.Value()) && ResourcesOf(st.Value()) == api.res && WellFormedState(st.Value()))
              && (Stuck(c, old(api.res)) ==> !ok && Stuck(c, api.res))
              && (Unreadable(c) ==> !ok && api.res == old(api.res))
              && (budgets != [] && budgets[0] >= CallsEnough(c) ==> (ok <==> !Stuck(c, old(api.res))))
              && (SomeEnough(c, budgets) ==> ok || Stuck(c, api.res))
              && (SomeEnough(c, budgets) && !MayStick(c) ==> ok)
    {
      ghost var c := Ctx(saved, base, spec, subsets, cfg);
      RecoverableIsValid(c, api.res, api.next);
      hide Recoverable, ValidCtx, LostLb, Unreadable, MayLoseLb, CallsEnough, Reconciled, WellFormedState, Completed, Work, ResourcesOf;
      ok := false;
      st := new LbaasState(saved);
      StuckIff(c, api.res, api.next);
      for i := 0 to |budgets|
        invariant fresh(st) && Safe(c) && !ok
        invariant Stuck(c, old(api.res)) ==> Stuck(c, api.res)
        invariant i == 0 || Unreadable(c) ==> api.res == old(api.res)
        invariant SomeEnough(c, budgets[..i]) ==> Stuck(c, api.res)
        invariant i > 0 && budgets[0] >= CallsEnough(c) ==> Stuck(c, old(api.res))
      {
        SomeEnoughNext(c, budgets, i);
        ok, st := Restart(saved, spec, subsets, budgets[i], c);
        if ok { return; }
      }
      assert budgets[..|budgets|] == budgets;
      StuckIff(c, api.res, api.next);
    }

    // A run that dies after it released the load balancer of a service that
    // moved leaves a listener to be released from nothing: no restart helps.
    method CutOffAfterRelease(st: LbaasState, saved: State, spec: ServiceSpec, subsets: seq<Subset>, budgets: seq<nat>, ghost c: Ctx)
      returns (released: bool, ok: bool)
      requires Safe(c) && c == Ctx(saved, c.base, spec, subsets, cfg) && MayLoseLb(c)
      requires st.Value() == State(saved.lb, L1(c), P1(c), M2(c))
      modifies st, api
      ensures released ==> !ok && Stuck(c, api.res)
    {
      hide Recoverable, ValidCtx, KeptListeners, KeptPools, KeptMembers, L1, P1, M2, UnusedListeners;
      ok := false;
      var changed;
      released, changed := ReleaseOldLoadBalancer(st, spec, c);
      if released {
        var again;
        ok, again := SyncWithRestarts(saved, spec, subsets, budgets, c.base);
      }
    }

    // Running again on the result reports no change and changes nothing.
    method SyncTwice(saved: State, spec: ServiceSpec, subsets: seq<Subset>) returns (ok: bool, again: bool, st: LbaasState)
      requires WellFormedState(saved) && ValidInput(spec, subsets)
      requires api.res == ResourcesOf(saved) && Below(api.res, api.next)
      modifies api
      ensures fresh(st)
      ensures ok ==> !again && api.res == ResourcesOf(st.Value())
                     && Reconciled(Ctx(saved, old(api.next), spec, subsets, cfg), st.Value())
    {
      st := new LbaasState(saved);
      ghost var c := Ctx(saved, api.next, spec, subsets, cfg);
      ConsistentIsRecoverable(c, api.next);
      var first, o;
      o, first := SyncMembers(st, spec, subsets, c);
      if !o.Done? { return false, false, st; }
      ghost var s := st.Value();
      ghost var c2 := Ctx(s, api.next, spec, subsets, cfg);
      ConsistentIsRecoverable(c2, api.next);
      SecondRunIdle(c, s, c2);
      o, again := SyncMembers(st, spec, subsets, c2);
      ok := o.Done?;
    }

    // The Endpoints object is gone: so is everything on the load balancer. A
    // state without one cannot be released.
    method OnDeleted(st: LbaasState) returns (o: Outcome)
      requires WellFormedState(st.Value()) && ResourcesOf(st.Value()) == api.res
      modifies api
      ensures o.Done? ==> api.res == Resources({}, {}, {}, {})
      ensures !o.Done? ==> api.res == old(api.res)
      ensures o.Crashed? <==> st.lb.None?
      ensures Spent(old(api.calls), api.calls, 1, !o.CutShort?)
    {
      if st.lb.None? { return Crashed; }
      DelLbWellFormed(api.res, st.lb.value.id);
      var ok := api.DeleteLoadBalancer(st.lb.value.id);
      if !ok { return CutShort; }
      NoLbNothing(api.res);
      return Done;
    }
  }
}
