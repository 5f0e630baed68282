/**
 Octavia as a store, and the driver's get-or-create and delete-if-there calls.
 The store answers a limited number of calls; after that every call is cut
 off, which stands for the controller or the connection dying at that point.
 */
module LbaasDriver {
  import opened Options
  import opened LbaasModel

  // How a step ends: through, cut off, or with an error no retry helps against.
  datatype Outcome = Done | CutShort | Crashed

  datatype Reply<+T> = CutOff | Conflict | NotFound | Got(value: T)

  class Octavia {
    var res: Resources
    var next: nat   // the next id to hand out
    var calls: nat  // how many more calls are answered

    constructor (calls: nat)
      ensures res == Resources({}, {}, {}, {}) && next == 0 && this.calls == calls
    {
      res, next, this.calls := Resources({}, {}, {}, {}), 0, calls;
    }

    twostate predicate Untouched()
      reads this
    {
      res == old(res) && next == old(next) && calls <= old(calls)
    }

    method DeleteMember(id: nat) returns (ok: bool)
      modifies this
      ensures ok ==> res == DelMember(old(res), id)
      ensures next == old(next) && Spent(old(calls), calls, 1, ok) && (!ok ==> Untouched())
    {
      if calls == 0 { return false; }
      calls, res := calls - 1, DelMember(res, id);
      return true;
    }

    method DeletePool(id: nat) returns (ok: bool)
      modifies this
      ensures ok ==> res == DelPool(old(res), id)
      ensures next == old(next) && Spent(old(calls), calls, 1, ok) && (!ok ==> Untouched())
    {
      if calls == 0 { return false; }
      calls, res := calls - 1, DelPool(res, id);
      return true;
    }

    method DeleteListener(id: nat) returns (ok: bool)
      modifies this
      ensures ok ==> res == DelListener(old(res), id)
      ensures next == old(next) && Spent(old(calls), calls, 1, ok) && (!ok ==> Untouched())
    {
      if calls == 0 { return false; }
      calls, res := calls - 1, DelListener(res, id);
      return true;
    }

    // The listener goes, and then its rule in the group of the address's port;
    // without a load balancer on the address there is no such port, and the
    // lookup of its group is an error.
    method ReleaseListener(cfg: Config, lb: LoadBalancer, id: nat) returns (o: Outcome)
      modifies this
      ensures Spent(old(calls), calls, 2, !o.CutShort?) && next == old(next)
      ensures res == DelListener(old(res), id) || (o.CutShort? && res == old(res))
      ensures o.Crashed? <==> !o.CutShort? && !cfg.sgCreate && forall b :: b in res.lbs ==> b.ip != lb.ip
    {
      var ok := DeleteListener(id);
      if !ok || calls == 0 { return CutShort; }
      calls := calls - 1;
      if !cfg.sgCreate && forall b :: b in res.lbs ==> b.ip != lb.ip { return Crashed; }
      return Done;
    }

    method DeleteLoadBalancer(id: nat) returns (ok: bool)
      modifies this
      ensures ok ==> res == DelLb(old(res), id)
      ensures next == old(next) && Spent(old(calls), calls, 1, ok) && (!ok ==> Untouched())
    {
      if calls == 0 { return false; }
      calls, res := calls - 1, DelLb(res, id);
      return true;
    }

    method CreateLoadBalancer(ip: string) returns (r: Reply<LoadBalancer>)
      modifies this
      ensures Spent(old(calls), calls, 1, !r.CutOff?)
      ensures r.CutOff? ==> Untouched()
      ensures r.Conflict? ==> Untouched() && exists b :: b in res.lbs && b.ip == ip
      ensures r.Got? ==> r.value == LoadBalancer(old(next), ip) && next == old(next) + 1
                         && res == old(res).(lbs := old(res.lbs) + {r.value}) && forall b :: b in old(res.lbs) ==> b.ip != ip
      ensures !r.NotFound?
    {
      if calls == 0 { return CutOff; }
      calls := calls - 1;
      if exists b :: b in res.lbs && b.ip == ip { return Conflict; }
      var b := LoadBalancer(next, ip);
      next, res := next + 1, res.(lbs := res.lbs + {b});
      return Got(b);
    }

    method FindLoadBalancer(ip: string) returns (r: Reply<LoadBalancer>)
      modifies this
      ensures Spent(old(calls), calls, 1, !r.CutOff?)
      ensures Untouched() && !r.Conflict?
      ensures r.NotFound? ==> forall b :: b in res.lbs ==> b.ip != ip
      ensures r.Got? ==> r.value in res.lbs && r.value.ip == ip
    {
      if calls == 0 { return CutOff; }
      calls := calls - 1;
      if b :| b in res.lbs && b.ip == ip { return Got(b); }
      return NotFound;
    }

    method CreateListener(lbId: nat, key: Key) returns (r: Reply<Listener>)
      modifies this
      ensures Spent(old(calls), calls, 1, !r.CutOff?)
      ensures r.CutOff? ==> Untouched()
      ensures r.Conflict? ==> Untouched() && exists l :: l in res.listeners && l.lbId == lbId && l.key == key
      ensures r.Got? ==> r.value == Listener(old(next), lbId, key) && next == old(next) + 1
                         && res == old(res).(listeners := old(res.listeners) + {r.value})
                         && forall l :: l in old(res.listeners) ==> !(l.lbId == lbId && l.key == key)
      ensures !r.NotFound?
    {
      if calls == 0 { return CutOff; }
      calls := calls - 1;
      if exists l :: l in res.listeners && l.lbId == lbId && l.key == key { return Conflict; }
      var l := Listener(next, lbId, key);
      next, res := next + 1, res.(listeners := res.listeners + {l});
      return Got(l);
    }

    method FindListener(lbId: nat, key: Key) returns (r: Reply<Listener>)
      modifies this
      ensures Spent(old(calls), calls, 1, !r.CutOff?)
      ensures Untouched() && !r.Conflict?
      ensures r.NotFound? ==> forall l :: l in res.listeners ==> !(l.lbId == lbId && l.key == key)
      ensures r.Got? ==> r.value in res.listeners && r.value.lbId == lbId && r.value.key == key
    {
      if calls == 0 { return CutOff; }
      calls := calls - 1;
      if l :| l in res.listeners && l.lbId == lbId && l.key == key { return Got(l); }
      return NotFound;
    }

    // A listener has at most one pool.
    method CreatePool(l: Listener) returns (r: Reply<Pool>)
      modifies this
      ensures Spent(old(calls), calls, 1, !r.CutOff?)
      ensures r.CutOff? ==> Untouched()
      ensures r.Conflict? ==> Untouched() && exists p :: p in res.pools && p.listenerId == l.id
      ensures r.Got? ==> r.value == Pool(old(next), l.lbId, l.id, l.key) && next == old(next) + 1
                         && res == old(res).(pools := old(res.pools) + {r.value})
                         && forall p :: p in old(res.pools) ==> p.listenerId != l.id
      ensures !r.NotFound?
    {
      if calls == 0 { return CutOff; }
      calls := calls - 1;
      if exists p :: p in res.pools && p.listenerId == l.id { return Conflict; }
      var p := Pool(next, l.lbId, l.id, l.key);
      next, res := next + 1, res.(pools := res.pools + {p});
      return Got(p);
    }

    // Looked up by name and load balancer, then by listener.
    method FindPool(l: Listener) returns (r: Reply<Pool>)
      modifies this
      ensures Spent(old(calls), calls, 1, !r.CutOff?)
      ensures Untouched() && !r.Conflict?
      ensures r.NotFound? ==> forall p :: p in res.pools ==> !OwnPool(p, l)
      ensures r.Got? ==> r.value in res.pools && OwnPool(r.value, l)
    {
      if calls == 0 { return CutOff; }
      calls := calls - 1;
      if p :| p in res.pools && p.name == l.key && p.lbId == l.lbId && p.listenerId == l.id { return Got(p); }
      return NotFound;
    }

    method CreateMember(poolId: nat, name: string, ip: string, port: int) returns (r: Reply<Member>)
      modifies this
      ensures Spent(old(calls), calls, 1, !r.CutOff?)
      ensures r.CutOff? ==> Untouched()
      ensures r.Conflict? ==> Untouched() && exists m :: m in res.members && m.poolId == poolId && m.ip == ip && m.port == port
      ensures r.Got? ==> r.value == Member(old(next), poolId, name, ip, port) && next == old(next) + 1
                         && res == old(res).(members := old(res.members) + {r.value})
                         && forall m :: m in old(res.members) ==> !(m.poolId == poolId && m.ip == ip && m.port == port)
      ensures !r.NotFound?
    {
      if calls == 0 { return CutOff; }
      calls := calls - 1;
      if exists m :: m in res.members && m.poolId == poolId && m.ip == ip && m.port == port { return Conflict; }
      var m := Member(next, poolId, name, ip, port);
      next, res := next + 1, res.(members := res.members + {m});
      return Got(m);
    }

    method FindMember(poolId: nat, name: string, ip: string, port: int) returns (r: Reply<Member>)
      modifies this
      ensures Spent(old(calls), calls, 1, !r.CutOff?)
      ensures Untouched() && !r.Conflict?
      ensures r.NotFound? ==> forall m :: m in res.members ==> !(m.poolId == poolId && m.name == name && m.ip == ip && m.port == port)
      ensures r.Got? ==> r.value in res.members && r.value.poolId == poolId && r.value.name == name && r.value.ip == ip && r.value.port == port
    {
      if calls == 0 { return CutOff; }
      calls := calls - 1;
      if m :| m in res.members && m.poolId == poolId && m.name == name && m.ip == ip && m.port == port { return Got(m); }
      return NotFound;
    }

    // ---------- get-or-create ----------

    // Either the load balancer was there or it has just been created.
    method EnsureLoadBalancer(ip: string) returns (r: Reply<LoadBalancer>)
      modifies this
      ensures Spent(old(calls), calls, 2, !r.CutOff?)
      ensures r.Got? || r.CutOff?
      ensures r.CutOff? ==> Untouched()
      ensures r.Got? ==> || (Untouched() && r.value in res.lbs && r.value.ip == ip)
                         || (r.value == LoadBalancer(old(next), ip) && next == old(next) + 1
                             && res == old(res).(lbs := old(res.lbs) + {r.value}) && forall b :: b in old(res.lbs) ==> b.ip != ip)
    {
      r := CreateLoadBalancer(ip);
      if r.Conflict? { r := FindLoadBalancer(ip); }
    }

    // Nothing is answered for a protocol Octavia does not support.
    method EnsureListener(cfg: Config, lb: LoadBalancer, key: Key) returns (r: Reply<Option<Listener>>)
      modifies this
      ensures Spent(old(calls), calls, 2, !r.CutOff?)
      ensures r.Got? || r.CutOff?
      ensures r.CutOff? ==> Untouched()
      ensures r.Got? ==> (r.value.None? <==> key.protocol !in cfg.supported) && (r.value.None? ==> Untouched())
      ensures r.Got? && r.value.Some? ==>
                || (Untouched() && r.value.value in res.listeners && r.value.value.lbId == lb.id && r.value.value.key == key)
                || (r.value.value == Listener(old(next), lb.id, key) && next == old(next) + 1
                    && res == old(res).(listeners := old(res.listeners) + {r.value.value})
                    && forall l :: l in old(res.listeners) ==> !(l.lbId == lb.id && l.key == key))
    {
      if key.protocol !in cfg.supported {
        if calls == 0 { return CutOff; }
        calls := calls - 1;
        return Got(None);
      }
      var x := CreateListener(lb.id, key);
      if x.Conflict? { x := FindListener(lb.id, key); }
      return if x.Got? then Got(Some(x.value)) else CutOff;
    }

    method EnsurePool(l: Listener) returns (r: Reply<Pool>)
      requires WellFormed(res) && l in res.listeners
      modifies this
      ensures Spent(old(calls), calls, 2, !r.CutOff?)
      ensures r.Got? || r.CutOff?
      ensures r.CutOff? ==> Untouched()
      ensures r.Got? ==> || (Untouched() && r.value in res.pools && OwnPool(r.value, l))
                         || (r.value == Pool(old(next), l.lbId, l.id, l.key) && next == old(next) + 1
                             && res == old(res).(pools := old(res.pools) + {r.value})
                             && forall p :: p in old(res.pools) ==> p.listenerId != l.id)
    {
      r := CreatePool(l);
      if r.Conflict? {
        var p :| p in res.pools && p.listenerId == l.id;
        assert OnListener(p, res.listeners);
        r := FindPool(l);
      }
    }

    // A member of the same pool, address and port but another name is in the
    // way: that member is never found and the call gives up.
    method EnsureMember(pool: Pool, ref: TargetRef, ip: string, port: int) returns (r: Reply<Member>)
      modifies this
      ensures Spent(old(calls), calls, 2, !r.CutOff?)
      ensures !r.Conflict?
      ensures r.CutOff? ==> Untouched()
      ensures r.NotFound? ==> Untouched() && exists m :: m in res.members && m.poolId == pool.id && m.ip == ip && m.port == port
                                                         && m.name != MemberName(ref, port)
      ensures r.Got? ==> r.value.poolId == pool.id && r.value.name == MemberName(ref, port) && r.value.ip == ip && r.value.port == port
      ensures r.Got? ==> || (Untouched() && r.value in res.members)
                         || (r.value.id == old(next) && next == old(next) + 1
                             && res == old(res).(members := old(res.members) + {r.value})
                             && forall m :: m in old(res.members) ==> !(m.poolId == pool.id && m.ip == ip && m.port == port))
    {
      var name := MemberName(ref, port);
      r := CreateMember(pool.id, name, ip, port);
      if r.Conflict? { r := FindMember(pool.id, name, ip, port); }
    }
  }
}
