/**
 Load balancer reconciliation, on values: the Kubernetes and Octavia records,
 what one reconciliation keeps and adds, and the relation between a saved
 state and the resources an interrupted reconciliation may leave behind.
 */
module LbaasModel {
  import opened Options

  // ---------- Kubernetes side ----------

  // Constructors are in the lexicographic order of the protocol names.
  datatype Protocol = SCTP | TCP | UDP

  function Rank(p: Protocol): nat {
    match p case SCTP => 0 case TCP => 1 case UDP => 2
  }

  // What identifies a listener within one load balancer.
  datatype Key = Key(protocol: Protocol, port: int)

  datatype PortSpec = PortSpec(name: Option<string>, protocol: Protocol, port: int)

  function KeyOf(p: PortSpec): Key { Key(p.protocol, p.port) }

  datatype ServiceSpec = ServiceSpec(ip: string, ports: seq<PortSpec>)

  datatype TargetRef = TargetRef(kind: string, namespace: string, name: string)

  datatype Address = Address(ip: string, ref: Option<TargetRef>)

  datatype EndpointPort = EndpointPort(name: Option<string>, port: int)

  // Either list may be missing: a subset whose pods are none of them ready has
  // no addresses, one for a service without ports has no ports.
  datatype Subset = Subset(addresses: Option<seq<Address>>, ports: Option<seq<EndpointPort>>)

  function AddressesOf(s: Subset): seq<Address> { if s.addresses.Some? then s.addresses.value else [] }
  function PortsOf(s: Subset): seq<EndpointPort> { if s.ports.Some? then s.ports.value else [] }

  // One address of a subset combined with one port of the same subset.
  datatype Target = Target(address: Address, port: EndpointPort)

  // `sgCreate`: load balancers get a security group of their own; otherwise
  // rules go to the group of the address's port.
  datatype Config = Config(doubleListeners: bool, supported: set<Protocol>, sgCreate: bool)

  function AddressTargets(a: Address, ports: seq<EndpointPort>): seq<Target> {
    if ports == [] then []
    else AddressTargets(a, ports[..|ports| - 1]) + [Target(a, ports[|ports| - 1])]
  }

  function SubsetTargets(addresses: seq<Address>, ports: seq<EndpointPort>): seq<Target> {
    if addresses == [] then []
    else SubsetTargets(addresses[..|addresses| - 1], ports) + AddressTargets(addresses[|addresses| - 1], ports)
  }

  function AllTargets(subsets: seq<Subset>): seq<Target> {
    if subsets == [] then []
    else
      var s := subsets[|subsets| - 1];
      AllTargets(subsets[..|subsets| - 1]) + SubsetTargets(AddressesOf(s), PortsOf(s))
  }

  predicate IsPod(a: Address) { a.ref.Some? && a.ref.value.kind == "Pod" }

  predicate HasPods(subsets: seq<Subset>) {
    exists s :: s in subsets && exists a :: a in AddressesOf(s) && IsPod(a)
  }

  // The pass that collects the current targets takes both lists to be there;
  // it reads the ports once for every address.
  predicate CannotRead(s: Subset) { s.addresses.None? || (s.addresses.value != [] && s.ports.None?) }

  predicate Incomplete(subsets: seq<Subset>) { exists s :: s in subsets && CannotRead(s) }

  function RefName(a: Address): string { if a.ref.Some? then a.ref.value.name else "" }

  // The key a port name stands for; a later port overrides an earlier one.
  function KeyFor(ports: seq<PortSpec>, name: Option<string>): Option<Key> {
    if ports == [] then None
    else if ports[|ports| - 1].name == name then Some(KeyOf(ports[|ports| - 1]))
    else KeyFor(ports[..|ports| - 1], name)
  }

  predicate InSpec(ports: seq<PortSpec>, key: Key) {
    exists p :: p in ports && KeyOf(p) == key
  }

  // ---------- member names ----------

  // The decimal digits of a port number.
  function Decimal(n: nat): string {
    var digit := ['0', '1', '2', '3', '4', '5', '6', '7', '8', '9'][n % 10];
    if n < 10 then [digit] else Decimal(n / 10) + [digit]
  }

  function PortString(n: int): string { if n < 0 then "-" + Decimal(-n) else Decimal(n) }

  function MemberName(ref: TargetRef, port: int): string {
    ref.namespace + "/" + ref.name + ":" + PortString(port)
  }

  // The text before the first `c`, or all of it.
  function Before(s: string, c: char): string {
    if s == "" || s[0] == c then "" else [s[0]] + Before(s[1..], c)
  }

  // The text after the first `c`.
  function After(s: string, c: char): Option<string> {
    if s == "" then None else if s[0] == c then Some(s[1..]) else After(s[1..], c)
  }

  // The pod a member stands for: the second '/'-separated part, up to its ':'.
  function PodName(member: string): Option<string> {
    match After(member, '/')
    case None => None
    case Some(rest) => Some(Before(Before(rest, '/'), ':'))
  }

  // Kubernetes names contain neither separator.
  predicate PlainName(s: string) { '/' !in s && ':' !in s }

  predicate ValidRef(ref: TargetRef) { PlainName(ref.namespace) && PlainName(ref.name) }

  lemma {:induction false} BeforeStops(a: string, c: char, b: string)
    requires c !in a
    ensures Before(a + [c] + b, c) == a
    ensures After(a + [c] + b, c) == Some(b)
  {
    var s := a + [c] + b;
    if a == "" {
      assert s[0] == c && s[1..] == b;
    } else {
      assert s[0] == a[0] && s[1..] == a[1..] + [c] + b;
      BeforeStops(a[1..], c, b);
    }
  }

  lemma {:induction false} BeforeAll(a: string, c: char)
    requires c !in a
    ensures Before(a, c) == a
  {
    if a != "" { BeforeAll(a[1..], c); }
  }

  lemma {:induction false} DecimalIsPlain(n: nat)
    ensures '/' !in Decimal(n)
  {
    if n >= 10 { DecimalIsPlain(n / 10); }
  }

  // Parsing a member's name gives back the pod it was built for.
  lemma PodNameRoundTrip(ref: TargetRef, port: int)
    requires ValidRef(ref)
    ensures PodName(MemberName(ref, port)) == Some(ref.name)
  {
    hide Before, After, Decimal;
    var tail := ref.name + ":" + PortString(port);
    assert MemberName(ref, port) == ref.namespace + ['/'] + tail;
    BeforeStops(ref.namespace, '/', tail);
    if port < 0 { DecimalIsPlain(-port); } else { DecimalIsPlain(port); }
    BeforeAll(tail, '/');
    assert tail == ref.name + [':'] + PortString(port);
    BeforeStops(ref.name, ':', PortString(port));
  }

  // The number that decimal digits stand for.
  function Value(s: string): int {
    if s == "" then 0 else 10 * Value(s[..|s| - 1]) + (s[|s| - 1] as int - '0' as int)
  }

  lemma {:induction false} DecimalValue(n: nat)
    ensures Value(Decimal(n)) == n && Decimal(n) != [] && Decimal(n)[0] != '-' && (Decimal(n)[0] == '0' ==> n == 0)
  {
    if n >= 10 {
      DecimalValue(n / 10);
      assert Decimal(n)[..|Decimal(n)| - 1] == Decimal(n / 10);
    } else {
      assert Decimal(n)[..0] == "";
    }
  }

  // A member's name reads back: the namespace up to the '/', the pod up to the
  // ':', and after it the port, in decimal without leading zeros.
  lemma MemberNameReads(ref: TargetRef, port: nat)
    requires ValidRef(ref)
    ensures var name := MemberName(ref, port);
            && Before(name, '/') == ref.namespace && PodName(name) == Some(ref.name)
            && After(name, ':').Some? && Value(After(name, ':').value) == port
            && After(name, ':').value != "" && (After(name, ':').value[0] == '0' ==> port == 0)
  {
    hide Before, After, Decimal, Value;
    var front := ref.namespace + "/" + ref.name;
    assert MemberName(ref, port) == front + [':'] + PortString(port);
    BeforeStops(front, ':', PortString(port));
    assert MemberName(ref, port) == ref.namespace + ['/'] + (ref.name + ":" + PortString(port));
    BeforeStops(ref.namespace, '/', ref.name + ":" + PortString(port));
    PodNameRoundTrip(ref, port);
    DecimalValue(port);
  }

  // So members of different pods or ports have different names.
  lemma MemberNameInjective(a: TargetRef, m: nat, b: TargetRef, n: nat)
    requires ValidRef(a) && ValidRef(b) && MemberName(a, m) == MemberName(b, n)
    ensures a.namespace == b.namespace && a.name == b.name && m == n
  {
    hide MemberName, Before, After, Value;
    MemberNameReads(a, m);
    MemberNameReads(b, n);
  }

  // ---------- Octavia side ----------

  datatype LoadBalancer = LoadBalancer(id: nat, ip: string)
  datatype Listener = Listener(id: nat, lbId: nat, key: Key)
  // A pool carries the name of its listener, which spells out the key.
  datatype Pool = Pool(id: nat, lbId: nat, listenerId: nat, name: Key)
  datatype Member = Member(id: nat, poolId: nat, name: string, ip: string, port: int)

  function ListenerId(x: Listener): nat { x.id }
  function PoolId(x: Pool): nat { x.id }
  function MemberId(x: Member): nat { x.id }
  function MemberPool(x: Member): nat { x.poolId }

  // The saved record of what was created for one service.
  datatype State = State(lb: Option<LoadBalancer>, listeners: seq<Listener>, pools: seq<Pool>, members: seq<Member>)

  // What Octavia holds for one service.
  datatype Resources = Resources(lbs: set<LoadBalancer>, listeners: set<Listener>, pools: set<Pool>, members: set<Member>)

  ghost function ResourcesOf(s: State): Resources {
    Resources(if s.lb.Some? then {s.lb.value} else {},
              (set x | x in s.listeners), (set x | x in s.pools), (set x | x in s.members))
  }

  ghost predicate UniqueLbs(lbs: set<LoadBalancer>) {
    && (forall a, b :: a in lbs && b in lbs && a.id == b.id ==> a == b)
    && (forall a, b :: a in lbs && b in lbs && a.ip == b.ip ==> a == b)
  }

  ghost predicate UniqueListeners(ls: set<Listener>) {
    && (forall a, b :: a in ls && b in ls && a.id == b.id ==> a == b)
    && (forall a, b :: a in ls && b in ls && a.lbId == b.lbId && a.key == b.key ==> a == b)
  }

  ghost predicate UniquePools(ps: set<Pool>) {
    && (forall a, b :: a in ps && b in ps && a.id == b.id ==> a == b)
    && (forall a, b :: a in ps && b in ps && a.listenerId == b.listenerId ==> a == b)
  }

  ghost predicate UniqueMembers(ms: set<Member>) {
    && (forall a, b :: a in ms && b in ms && a.id == b.id ==> a == b)
    && (forall a, b :: a in ms && b in ms && a.poolId == b.poolId && a.ip == b.ip && a.port == b.port ==> a == b)
  }

  // Referential integrity: no listener, pool or member hangs in the air.
  ghost predicate OnLb(l: Listener, lbs: set<LoadBalancer>) { exists b :: b in lbs && b.id == l.lbId }

  ghost predicate OnListener(p: Pool, ls: set<Listener>) {
    exists l :: l in ls && l.id == p.listenerId && l.key == p.name && l.lbId == p.lbId
  }

  ghost predicate InPool(m: Member, ps: set<Pool>) { exists p :: p in ps && p.id == m.poolId }

  ghost predicate LinkedListeners(ls: set<Listener>, lbs: set<LoadBalancer>) { forall l :: l in ls ==> OnLb(l, lbs) }
  ghost predicate LinkedPools(ps: set<Pool>, ls: set<Listener>) { forall p :: p in ps ==> OnListener(p, ls) }
  ghost predicate LinkedMembers(ms: set<Member>, ps: set<Pool>) { forall m :: m in ms ==> InPool(m, ps) }

  ghost predicate WellFormed(r: Resources) {
    && UniqueLbs(r.lbs) && UniqueListeners(r.listeners) && UniquePools(r.pools) && UniqueMembers(r.members)
    && LinkedListeners(r.listeners, r.lbs) && LinkedPools(r.pools, r.listeners) && LinkedMembers(r.members, r.pools)
  }

  ghost predicate WellNamed(m: Member) {
    exists ref :: ValidRef(ref) && m.name == MemberName(ref, m.port)
  }

  ghost predicate NoDup<T>(s: seq<T>) {
    forall i, j :: 0 <= i < j < |s| ==> s[i] != s[j]
  }

  ghost predicate WellFormedState(s: State) {
    && NoDup(s.listeners) && NoDup(s.pools) && NoDup(s.members)
    && WellFormed(ResourcesOf(s))
    && (forall m :: m in s.members ==> WellNamed(m))
  }

  // All ids are below `n`.
  ghost predicate Below(r: Resources, n: nat) {
    && (forall x :: x in r.lbs ==> x.id < n)
    && (forall x :: x in r.listeners ==> x.id < n)
    && (forall x :: x in r.pools ==> x.id < n)
    && (forall x :: x in r.members ==> x.id < n)
  }

  // Octavia's deletions. Deleting what is not there changes nothing.
  function DelMember(r: Resources, id: nat): Resources {
    r.(members := (set m | m in r.members && m.id != id))
  }

  // Deleting a pool deletes its members.
  function DelPool(r: Resources, id: nat): Resources {
    r.(pools := (set p | p in r.pools && p.id != id),
       members := (set m | m in r.members && m.poolId != id))
  }

  function DelListener(r: Resources, id: nat): Resources {
    r.(listeners := (set l | l in r.listeners && l.id != id))
  }

  // Load balancers are deleted with cascade.
  function DelLb(r: Resources, id: nat): Resources {
    Resources((set b | b in r.lbs && b.id != id),
              (set l | l in r.listeners && l.lbId != id),
              (set p | p in r.pools && p.lbId != id),
              (set m | m in r.members && forall p :: p in r.pools && p.id == m.poolId ==> p.lbId != id))
  }

  // ---------- what one reconciliation keeps and adds ----------

  // The entries whose id is not in `removed`, in order.
  function Except<T>(s: seq<T>, id: T -> nat, removed: set<nat>): (r: seq<T>) {
    if s == [] then []
    else
      var r := Except(s[..|s| - 1], id, removed);
      var x := s[|s| - 1];
      if id(x) in removed then r else r + [x]
  }

  lemma {:induction false} ExceptMembers<T(!new)>(s: seq<T>, id: T -> nat, removed: set<nat>)
    ensures forall x :: x in Except(s, id, removed) <==> x in s && id(x) !in removed
  {
    if s != [] {
      ExceptMembers(s[..|s| - 1], id, removed);
      assert s == s[..|s| - 1] + [s[|s| - 1]];
    }
  }

  lemma {:induction false} ExceptNoDup<T(!new)>(s: seq<T>, id: T -> nat, removed: set<nat>)
    requires NoDup(s)
    ensures NoDup(Except(s, id, removed))
  {
    if s != [] {
      var init := s[..|s| - 1];
      var r := Except(init, id, removed);
      ExceptNoDup(init, id, removed);
      ExceptMembers(init, id, removed);
      forall x | x in r ensures x != s[|s| - 1] {
        assert x in init;
      }
    }
  }

  // Nothing to remove: the list is kept as it is; and only then.
  lemma {:induction false} ExceptAll<T(!new)>(s: seq<T>, id: T -> nat, removed: set<nat>)
    ensures |Except(s, id, removed)| <= |s|
    ensures (forall x :: x in s ==> id(x) !in removed) <==> Except(s, id, removed) == s
  {
    if s != [] {
      var init := s[..|s| - 1];
      ExceptAll(init, id, removed);
      assert s == init + [s[|s| - 1]];
      if id(s[|s| - 1]) in removed {
        assert s[|s| - 1] in s;
      } else {
        assert Except(s, id, removed) == Except(init, id, removed) + [s[|s| - 1]];
        if Except(s, id, removed) == s {
          assert Except(s, id, removed)[..|s| - 1] == init;
        }
      }
    }
  }

  // Listeners are visited in the order of their protocol (a stable sort).
  function InsertByProtocol(p: PortSpec, sorted: seq<PortSpec>): seq<PortSpec> {
    if sorted == [] then [p]
    else if Rank(p.protocol) < Rank(sorted[|sorted| - 1].protocol) then
      InsertByProtocol(p, sorted[..|sorted| - 1]) + [sorted[|sorted| - 1]]
    else sorted + [p]
  }

  function SortByProtocol(ports: seq<PortSpec>): seq<PortSpec> {
    if ports == [] then []
    else InsertByProtocol(ports[|ports| - 1], SortByProtocol(ports[..|ports| - 1]))
  }

  lemma {:induction false} InsertKeepsAll(p: PortSpec, s: seq<PortSpec>)
    ensures multiset(InsertByProtocol(p, s)) == multiset(s) + multiset{p}
  {
    if s != [] && Rank(p.protocol) < Rank(s[|s| - 1].protocol) {
      InsertKeepsAll(p, s[..|s| - 1]);
      assert s == s[..|s| - 1] + [s[|s| - 1]];
    }
  }

  // "SCTP" before "TCP" before "UDP".
  ghost predicate SortedByProtocol(s: seq<PortSpec>) {
    forall i, j :: 0 <= i < j < |s| ==> NotAfter(s[i].protocol, s[j].protocol)
  }

  predicate NotAfter(a: Protocol, b: Protocol) { a == b || a == SCTP || b == UDP }

  lemma {:induction false} InsertSorts(p: PortSpec, s: seq<PortSpec>)
    requires SortedByProtocol(s)
    ensures SortedByProtocol(InsertByProtocol(p, s))
  {
    if s != [] && Rank(p.protocol) < Rank(s[|s| - 1].protocol) {
      var init := s[..|s| - 1];
      InsertSorts(p, init);
      InsertKeepsAll(p, init);
      var r := InsertByProtocol(p, init);
      forall k | 0 <= k < |r| ensures NotAfter(r[k].protocol, s[|s| - 1].protocol) {
        assert r[k] in multiset(r);
        assert r[k] in multiset(init) || r[k] == p;
      }
    }
  }

  lemma {:induction false} SortKeepsAll(ports: seq<PortSpec>)
    ensures multiset(SortByProtocol(ports)) == multiset(ports)
  {
    if ports != [] {
      var init, last := ports[..|ports| - 1], ports[|ports| - 1];
      SortKeepsAll(init);
      hide InsertByProtocol;
      InsertKeepsAll(last, SortByProtocol(init));
      assert ports == init + [last];
    }
  }

  lemma {:induction false} SortSorts(ports: seq<PortSpec>)
    ensures SortedByProtocol(SortByProtocol(ports))
  {
    if ports != [] {
      hide InsertByProtocol, SortedByProtocol;
      SortSorts(ports[..|ports| - 1]);
      InsertSorts(ports[|ports| - 1], SortByProtocol(ports[..|ports| - 1]));
    }
  }

  // The visiting order is a permutation of the spec's ports, ordered by protocol.
  lemma SortedPorts(ports: seq<PortSpec>)
    ensures SortedByProtocol(SortByProtocol(ports))
    ensures multiset(SortByProtocol(ports)) == multiset(ports)
  {
    hide SortedByProtocol, SortByProtocol;
    SortKeepsAll(ports);
    SortSorts(ports);
  }

  lemma SortedPortsMembers(ports: seq<PortSpec>)
    ensures forall p :: p in SortByProtocol(ports) <==> p in ports
  {
    SortKeepsAll(ports);
    SameElements(SortByProtocol(ports), ports);
  }

  lemma SameElements<T>(a: seq<T>, b: seq<T>)
    requires multiset(a) == multiset(b)
    ensures forall x :: x in a <==> x in b
  {
    forall x ensures x in a <==> x in b {
      assert x in a <==> x in multiset(a);
      assert x in b <==> x in multiset(b);
    }
  }

  predicate PortTaken(keys: seq<Key>, port: int) {
    exists k :: k in keys && k.port == port
  }

  // Whether a listener is created for key `k` when `have` are there already.
  predicate Creates(have: seq<Key>, k: Key, cfg: Config) {
    && k !in have
    && (cfg.doubleListeners || !PortTaken(have, k.port))
    && k.protocol in cfg.supported
  }

  // The keys of the listeners created, in order.
  function NewKeys(have: seq<Key>, ports: seq<PortSpec>, cfg: Config): seq<Key> {
    if ports == [] then []
    else
      var before := NewKeys(have, ports[..|ports| - 1], cfg);
      var k := KeyOf(ports[|ports| - 1]);
      if Creates(have + before, k, cfg) then before + [k] else before
  }

  function Keys(listeners: seq<Listener>): (r: seq<Key>)
    ensures |r| == |listeners|
    ensures forall i :: 0 <= i < |r| ==> r[i] == listeners[i].key
  {
    seq(|listeners|, i requires 0 <= i < |listeners| => listeners[i].key)
  }

  // The pool a target belongs to.
  function PoolNamed(pools: seq<Pool>, name: Key): Option<Pool> {
    if pools == [] then None
    else if pools[|pools| - 1].name == name then Some(pools[|pools| - 1])
    else PoolNamed(pools[..|pools| - 1], name)
  }

  function PoolFor(pools: seq<Pool>, ports: seq<PortSpec>, t: Target): Option<Pool> {
    match KeyFor(ports, t.port.name)
    case None => None
    case Some(k) => PoolNamed(pools, k)
  }

  predicate HasMember(members: seq<Member>, ip: string, port: int, poolId: nat) {
    exists m :: m in members && m.ip == ip && m.port == port && m.poolId == poolId
  }

  // A member to create: a target and the pool it goes into.
  datatype Wanted = Wanted(target: Target, pool: Pool)

  function Missing(targets: seq<Target>, pools: seq<Pool>, ports: seq<PortSpec>, have: seq<Member>): (r: seq<Wanted>)
    ensures forall w :: w in r ==> w.target in targets && IsPod(w.target.address) && PoolFor(pools, ports, w.target) == Some(w.pool)
  {
    if targets == [] then []
    else
      var r := Missing(targets[..|targets| - 1], pools, ports, have);
      var t := targets[|targets| - 1];
      assert t in targets && forall x :: x in targets[..|targets| - 1] ==> x in targets;
      var p := PoolFor(pools, ports, t);
      if IsPod(t.address) && p.Some? && !HasMember(have, t.address.ip, t.port.port, p.value.id)
      then r + [Wanted(t, p.value)]
      else r
  }

  // Member `m` is what was asked for by `w`.
  ghost predicate Serves(m: Member, w: Wanted) {
    && w.target.address.ref.Some?
    && m.poolId == w.pool.id && m.ip == w.target.address.ip && m.port == w.target.port.port
    && m.name == MemberName(w.target.address.ref.value, w.target.port.port)
  }

  // One reconciliation: the saved state it starts from, its inputs, and a
  // bound that separates the saved ids from the ids handed out since.
  datatype Ctx = Ctx(s0: State, base: nat, spec: ServiceSpec, subsets: seq<Subset>, cfg: Config)

  ghost predicate UniquePorts(ports: seq<PortSpec>) {
    && (forall p, q :: p in ports && q in ports && p.name == q.name ==> p == q)
    && (forall p, q :: p in ports && q in ports && KeyOf(p) == KeyOf(q) ==> p == q)
  }

  ghost predicate UniqueTargets(ts: seq<Target>) {
    forall i, j :: 0 <= i < j < |ts| ==>
      !(ts[i].address.ip == ts[j].address.ip && ts[i].port == ts[j].port)
  }

  ghost predicate ValidInput(spec: ServiceSpec, subsets: seq<Subset>) {
    && UniquePorts(spec.ports)
    && UniqueTargets(AllTargets(subsets))
    && (forall t :: t in AllTargets(subsets) && t.address.ref.Some? ==> ValidRef(t.address.ref.value))
  }

  ghost predicate ValidCtx(c: Ctx) {
    WellFormedState(c.s0) && Below(ResourcesOf(c.s0), c.base) && ValidInput(c.spec, c.subsets)
  }

  ghost predicate SameLb(c: Ctx) { c.s0.lb.Some? && c.s0.lb.value.ip == c.spec.ip }

  // Some endpoint address and port of the right pool, backed by the same pod.
  ghost predicate Targeted(c: Ctx, m: Member) {
    exists t, p ::
      && t in AllTargets(c.subsets) && p in c.s0.pools && p.id == m.poolId
      && KeyFor(c.spec.ports, t.port.name) == Some(p.name)
      && t.address.ip == m.ip && t.port.port == m.port && PodName(m.name) == Some(RefName(t.address))
  }

  ghost function UnusedMembers(c: Ctx): set<nat> {
    if HasPods(c.subsets) then set m | m in c.s0.members && !Targeted(c, m) :: m.id else {}
  }

  ghost function UnusedPools(c: Ctx): set<nat> {
    set p | p in c.s0.pools && !InSpec(c.spec.ports, p.name) :: p.id
  }

  ghost function M1(c: Ctx): seq<Member> { Except(c.s0.members, MemberId, UnusedMembers(c)) }
  ghost function P1(c: Ctx): seq<Pool> { Except(c.s0.pools, PoolId, UnusedPools(c)) }
  ghost function M2(c: Ctx): seq<Member> { Except(M1(c), MemberPool, UnusedPools(c)) }

  ghost function UnusedListeners(c: Ctx): set<nat> {
    set l | l in c.s0.listeners && (forall p :: p in P1(c) ==> p.listenerId != l.id) :: l.id
  }

  ghost function L1(c: Ctx): seq<Listener> { Except(c.s0.listeners, ListenerId, UnusedListeners(c)) }

  // What survives: nothing, when the load balancer itself is replaced.
  ghost function KeptListeners(c: Ctx): seq<Listener> { if SameLb(c) then L1(c) else [] }
  ghost function KeptPools(c: Ctx): seq<Pool> { if SameLb(c) then P1(c) else [] }
  ghost function KeptMembers(c: Ctx): seq<Member> { if SameLb(c) then M2(c) else [] }

  ghost function AddedKeys(c: Ctx): seq<Key> {
    NewKeys(Keys(KeptListeners(c)), SortByProtocol(c.spec.ports), c.cfg)
  }

  ghost function MissingFrom(c: Ctx, pools: seq<Pool>): seq<Wanted> {
    if HasPods(c.subsets) then Missing(AllTargets(c.subsets), pools, c.spec.ports, KeptMembers(c)) else []
  }

  // The new listeners, pools and members follow the kept ones, in this order;
  // only their ids are left to Octavia.
  ghost predicate Reconciled(c: Ctx, s: State) {
    && Framed(c, s)
    && NewMembers(KeptMembers(c), c.base, MissingFrom(c, s.pools), s.members)
  }

  // The load balancer, the listeners and the pools are in place.
  ghost predicate Framed(c: Ctx, s: State) {
    && s.lb.Some? && s.lb.value.ip == c.spec.ip && (SameLb(c) ==> s.lb == c.s0.lb)
    && NewListeners(KeptListeners(c), c.base, AddedKeys(c), s.lb.value, s.listeners)
    && NewPools(KeptPools(c), c.base, |KeptListeners(c)|, s.listeners, s.pools)
  }

  ghost predicate NewListeners(kept: seq<Listener>, base: nat, keys: seq<Key>, lb: LoadBalancer, listeners: seq<Listener>) {
    && |listeners| == |kept| + |keys|
    && kept <= listeners
    && (forall i :: |kept| <= i < |listeners| ==>
          listeners[i].key == keys[i - |kept|] && listeners[i].lbId == lb.id && listeners[i].id >= base)
  }

  // Every listener from the `k`-th on gets its own pool.
  ghost predicate NewPools(kept: seq<Pool>, base: nat, k: nat, listeners: seq<Listener>, pools: seq<Pool>) {
    && |listeners| >= k
    && |pools| == |kept| + |listeners| - k
    && kept <= pools
    && (forall i :: |kept| <= i < |pools| ==> OwnPool(pools[i], listeners[k + i - |kept|]) && pools[i].id >= base)
  }

  ghost predicate OwnPool(p: Pool, l: Listener) {
    p.listenerId == l.id && p.name == l.key && p.lbId == l.lbId
  }

  ghost predicate NewMembers(kept: seq<Member>, base: nat, wanted: seq<Wanted>, members: seq<Member>) {
    && |members| == |kept| + |wanted|
    && kept <= members
    && (forall i :: |kept| <= i < |members| ==> Serves(members[i], wanted[i - |kept|]) && members[i].id >= base)
  }

  // ---------- what an interrupted reconciliation may leave behind ----------

  // Each resource is either saved or one this reconciliation would create.

  ghost predicate KnownLb(c: Ctx, b: LoadBalancer) {
    c.s0.lb == Some(b) || (b.id >= c.base && b.ip == c.spec.ip && !SameLb(c))
  }

  ghost predicate CreatedListener(c: Ctx, lbs: set<LoadBalancer>, l: Listener) {
    && l.id >= c.base && l.key in AddedKeys(c)
    && exists b :: b in lbs && b.id == l.lbId && b.ip == c.spec.ip
  }

  ghost predicate CreatedPool(c: Ctx, p: Pool) { p.id >= c.base && p.listenerId >= c.base }

  // Pool `p` is where target `t` belongs, and is there to stay.
  ghost predicate Feeds(c: Ctx, t: Target, p: Pool) {
    && t in AllTargets(c.subsets) && IsPod(t.address)
    && (p in KeptPools(c) || p.id >= c.base)
    && KeyFor(c.spec.ports, t.port.name) == Some(p.name)
  }

  ghost predicate CreatedMember(c: Ctx, ps: set<Pool>, m: Member) {
    && m.id >= c.base && HasPods(c.subsets)
    && exists t, p :: p in ps && Feeds(c, t, p) && Serves(m, Wanted(t, p))
  }

  ghost predicate KnownLbs(c: Ctx, lbs: set<LoadBalancer>) {
    forall b :: b in lbs ==> KnownLb(c, b)
  }
  ghost predicate KnownListeners(c: Ctx, lbs: set<LoadBalancer>, ls: set<Listener>) {
    forall l :: l in ls ==> l in c.s0.listeners || CreatedListener(c, lbs, l)
  }
  ghost predicate KnownPools(c: Ctx, ps: set<Pool>) {
    forall p :: p in ps ==> p in c.s0.pools || CreatedPool(c, p)
  }
  ghost predicate KnownMembers(c: Ctx, ps: set<Pool>, ms: set<Member>) {
    forall m :: m in ms ==> m in c.s0.members || CreatedMember(c, ps, m)
  }

  // All that is to be kept is there.
  ghost predicate HoldsKept(c: Ctx, r: Resources) {
    && (SameLb(c) ==> c.s0.lb.value in r.lbs)
    && (forall l :: l in KeptListeners(c) ==> l in r.listeners)
    && (forall p :: p in KeptPools(c) ==> p in r.pools)
    && (forall m :: m in KeptMembers(c) ==> m in r.members)
  }

  ghost predicate Recoverable(c: Ctx, r: Resources, next: nat) {
    && ValidCtx(c) && c.base <= next
    && WellFormed(r) && Below(r, next)
    && KnownLbs(c, r.lbs) && KnownListeners(c, r.lbs, r.listeners)
    && KnownPools(c, r.pools) && KnownMembers(c, r.pools, r.members)
    && HoldsKept(c, r)
  }

  // The saved resources that are not kept are gone.
  ghost predicate CleanMembers(c: Ctx, r: Resources) {
    forall m :: m in r.members ==> m.id !in UnusedMembers(c)
  }
  ghost predicate CleanPools(c: Ctx, r: Resources) {
    && (forall p :: p in r.pools ==> p.id !in UnusedPools(c))
    && (forall m :: m in r.members ==> m.poolId !in UnusedPools(c))
  }
  ghost predicate CleanListeners(c: Ctx, r: Resources) {
    forall l :: l in r.listeners ==> l.id !in UnusedListeners(c)
  }
  ghost predicate Clean(c: Ctx, r: Resources) {
    && (forall b :: b in r.lbs ==> b.ip == c.spec.ip)
    && (forall l :: l in r.listeners ==> l in KeptListeners(c) || l.id >= c.base)
    && (forall p :: p in r.pools ==> p in KeptPools(c) || p.id >= c.base)
    && (forall m :: m in r.members ==> m in KeptMembers(c) || m.id >= c.base)
  }

  // ---------- what a reconciliation cannot get past ----------

  // The Endpoints object has a pod, so its targets are collected, and has a
  // subset that this cannot read.
  ghost predicate Unreadable(c: Ctx) { HasPods(c.subsets) && Incomplete(c.subsets) }

  // The saved load balancer is to be replaced and is gone already, though a
  // saved listener on it is still to be released: releasing it looks up the
  // port of the load balancer's address, which went with the load balancer.
  ghost predicate LostLb(c: Ctx, r: Resources) {
    !c.cfg.sgCreate && c.s0.lb.Some? && c.s0.lb.value !in r.lbs && UnusedListeners(c) != {}
  }

  // What a caller can tell beforehand: only such an input loses it too early.
  ghost predicate MayLoseLb(c: Ctx) {
    !c.cfg.sgCreate && c.s0.lb.Some? && !SameLb(c) && UnusedListeners(c) != {}
  }

  ghost predicate Stuck(c: Ctx, r: Resources) { Unreadable(c) || LostLb(c, r) }
  ghost predicate MayStick(c: Ctx) { Unreadable(c) || MayLoseLb(c) }

  // ---------- calls ----------

  // A step made at most `cost` calls; it was cut off only for want of calls.
  predicate Spent(before: nat, after: nat, cost: nat, through: bool) {
    before - cost <= after <= before && (!through ==> after == 0 && before < cost)
  }

  // The calls that are enough for one reconciliation.
  function CallsEnough(c: Ctx): nat {
    |c.s0.members| + |c.s0.pools| + 2 * |c.s0.listeners| + 4 * |c.spec.ports| + 2 * |AllTargets(c.subsets)| + 3
  }
}
