/**
 The pools of ready-made Neutron ports. The driver keeps nested maps of lists;
 the ghost map `place` says where each port is, and `Valid` that the maps tell
 the same story: every known port is in exactly one place.
 */
module VifPool {
  import opened Options

  type PortId = nat
  type SgId = string

  datatype PoolKey = PoolKey(host: string, project: string, net: string)

  // The security groups the ports of a list carry, sorted; None when Neutron
  // did not report them at the time the port was recycled.
  type GroupKey = Option<seq<SgId>>

  datatype Vif = Vif(id: PortId)

  datatype Config = Config(max: nat, min: nat, batch: nat, frequency: int, debug: bool, nested: bool)

  datatype Place = Available(key: PoolKey, group: GroupKey) | Recyclable(key: PoolKey) | InUse

  type Lists = map<PoolKey, map<GroupKey, seq<PortId>>>

  predicate Listed(lists: Lists, k: PoolKey, g: GroupKey, p: PortId) {
    k in lists && g in lists[k] && p in lists[k][g]
  }

  ghost predicate NoDup(s: seq<PortId>) {
    forall i, j :: 0 <= i < j < |s| ==> s[i] != s[j]
  }

  // The lists hold exactly the available ports, each once.
  ghost predicate ListsMatch(lists: Lists, place: map<PortId, Place>) {
    && (forall k, g, p :: Listed(lists, k, g, p) ==> p in place && place[p] == Available(k, g))
    && (forall p :: p in place && place[p].Available? ==> Listed(lists, place[p].key, place[p].group, p))
    && (forall k, g :: k in lists && g in lists[k] ==> NoDup(lists[k][g]))
  }

  ghost predicate RecyclableMatch(recyclable: map<PortId, PoolKey>, place: map<PortId, Place>) {
    && (forall p :: p in recyclable ==> p in place && place[p] == Recyclable(recyclable[p]))
    && (forall p :: p in place && place[p].Recyclable? ==> p in recyclable)
  }

  ghost predicate VifsMatch(existing: map<PortId, Vif>, place: map<PortId, Place>) {
    && existing.Keys <= place.Keys && (forall p :: p in existing ==> existing[p].id == p)
    && (forall p :: p in place && !place[p].InUse? ==> p in existing)
  }

  // An available port carries the security groups of its list.
  ghost predicate GroupsMatch(neutron: map<PortId, seq<SgId>>, place: map<PortId, Place>) {
    && neutron.Keys == place.Keys
    && (forall p :: p in place && place[p].Available? && place[p].group.Some? && place[p].group.value != []
          ==> neutron[p] == place[p].group.value)
  }

  ghost predicate Consistent(lists: Lists, recyclable: map<PortId, PoolKey>, existing: map<PortId, Vif>,
                             neutron: map<PortId, seq<SgId>>, place: map<PortId, Place>) {
    ListsMatch(lists, place) && RecyclableMatch(recyclable, place) && VifsMatch(existing, place) && GroupsMatch(neutron, place)
  }

  // What consistency says of the maps themselves: no port is at two positions
  // of the lists, or both listed and recyclable, and every port that is either
  // has a stored vif and a Neutron port. The remaining ports are in use.
  lemma OnePlace(lists: Lists, recyclable: map<PortId, PoolKey>, existing: map<PortId, Vif>,
                 neutron: map<PortId, seq<SgId>>, place: map<PortId, Place>)
    requires Consistent(lists, recyclable, existing, neutron, place)
    ensures forall k, g, i, k', g', i' ::
              (&& k in lists && g in lists[k] && 0 <= i < |lists[k][g]|
               && k' in lists && g' in lists[k'] && 0 <= i' < |lists[k'][g']| && lists[k][g][i] == lists[k'][g'][i'])
              ==> k == k' && g == g' && i == i'
    ensures forall k, g, p :: Listed(lists, k, g, p) ==> p !in recyclable && p in existing && p in neutron
    ensures forall p :: p in recyclable ==> p in existing && p in neutron
    ensures forall p :: p in neutron ==> (place[p].InUse? <==> p !in recyclable && forall k, g :: !Listed(lists, k, g, p))
  {
    forall k, g, i, k', g', i' |
      k in lists && g in lists[k] && 0 <= i < |lists[k][g]| && k' in lists && g' in lists[k'] && 0 <= i' < |lists[k'][g']|
      && lists[k][g][i] == lists[k'][g'][i']
      ensures k == k' && g == g' && i == i'
    {
      assert Listed(lists, k, g, lists[k][g][i]) && Listed(lists, k', g', lists[k][g][i]);
    }
  }

  // ---------- sizes ----------

  ghost function PortsOf(place: map<PortId, Place>, k: PoolKey): set<PortId> {
    set p | p in place && place[p].Available? && place[p].key == k
  }

  ghost function PoolSize(place: map<PortId, Place>, k: PoolKey): nat { |PortsOf(place, k)| }

  ghost function SetOf(s: seq<PortId>): set<PortId> { set x | x in s }

  lemma SetOfSnoc(s: seq<PortId>, x: PortId)
    ensures SetOf(s + [x]) == SetOf(s) + {x}
  {
    assert forall y :: y in s + [x] <==> y in s || y == x;
  }

  lemma {:induction false} NoDupSize(s: seq<PortId>)
    requires NoDup(s)
    ensures |SetOf(s)| == |s|
  {
    if s != [] {
      var init, last := s[..|s| - 1], s[|s| - 1];
      NoDupSize(init);
      SetOfSnoc(init, last);
      assert s == init + [last];
      assert last !in init;
    }
  }

  function Limit(cfg: Config): nat {
    if cfg.max >= cfg.min + cfg.batch - 1 then cfg.max else cfg.min + cfg.batch - 1
  }

  // ---------- what each operation does to the places ----------

  datatype Step =
    | Take(p: PortId)
    | Release(p: PortId, k: PoolKey)
    | Populate(k: PoolKey, g: seq<SgId>, ports: set<PortId>)
    | Return
    | RemoveSg(sg: SgId, net: string)
    | RemoveSgPartly(sg: SgId, net: string)
    | Drop(ports: set<PortId>)

  ghost predicate Returned(cfg: Config, before: map<PortId, Place>, after: map<PortId, Place>) {
    && after.Keys <= before.Keys
    && (forall p :: p in before && !before[p].Recyclable? ==> p in after && after[p] == before[p])
    && (forall p :: p in after && before[p].Recyclable? ==>
          after[p] == before[p] || (after[p].Available? && after[p].key == before[p].key))
    && (cfg.max > 0 ==> forall k :: PoolSize(after, k) <= if PoolSize(before, k) >= cfg.max then PoolSize(before, k) else cfg.max)
    && (forall k :: PoolSize(after, k) >= PoolSize(before, k))
    // a port is deleted only for a pool that is full
    && (forall p :: p in before && p !in after ==> cfg.max > 0 && PoolSize(after, before[p].key) >= cfg.max)
  }

  ghost function WithPorts(place: map<PortId, Place>, k: PoolKey, g: GroupKey, ports: set<PortId>): map<PortId, Place> {
    place + map p | p in ports :: Available(k, g)
  }

  function Ungrouped(place: map<PortId, Place>, sg: SgId, net: string): map<PortId, Place> {
    map p | p in place :: if Moves(place[p], sg, net) then Available(place[p].key, Some([])) else place[p]
  }

  predicate Moves(at: Place, sg: SgId, net: string) {
    at.Available? && at.key.net == net && at.group.Some? && sg in at.group.value
  }

  // Some of the ports under the group are off it.
  ghost predicate PartlyUngrouped(before: map<PortId, Place>, after: map<PortId, Place>, sg: SgId, net: string) {
    && after.Keys == before.Keys
    && forall p :: p in before ==>
         after[p] == before[p] || (Moves(before[p], sg, net) && after[p] == Available(before[p].key, Some([])))
  }

  ghost predicate Next(cfg: Config, before: map<PortId, Place>, step: Step, after: map<PortId, Place>) {
    match step
    case Take(p) => p in before && before[p].Available? && after == before[p := InUse]
    case Release(p, k) => p in before && !before[p].Available? && after == before[p := Recyclable(k)]
    case Populate(k, g, ports) =>
      && ports !! before.Keys
      && PoolSize(before, k) < cfg.min
      && |ports| <= (if cfg.batch >= cfg.min - PoolSize(before, k) then cfg.batch else cfg.min - PoolSize(before, k))
      && after == WithPorts(before, k, Some(g), ports)
    case Return => Returned(cfg, before, after)
    case RemoveSg(sg, net) => after == Ungrouped(before, sg, net)
    case RemoveSgPartly(sg, net) => PartlyUngrouped(before, after, sg, net)
    case Drop(ports) => after == before - ports
  }

  ghost predicate Bounded(cfg: Config, place: map<PortId, Place>) {
    forall k :: PoolSize(place, k) <= Limit(cfg)
  }

  lemma SubsetSize(a: set<PortId>, b: set<PortId>)
    requires a <= b
    ensures |a| <= |b|
  {
    assert b == a + (b - a);
  }

  lemma PopulatedPorts(cfg: Config, before: map<PortId, Place>, k: PoolKey, g: seq<SgId>, ports: set<PortId>, after: map<PortId, Place>)
    requires Next(cfg, before, Populate(k, g, ports), after)
    ensures PortsOf(after, k) == PortsOf(before, k) + ports
    ensures PoolSize(after, k) == PoolSize(before, k) + |ports|
    ensures forall j :: j != k ==> PortsOf(after, j) == PortsOf(before, j)
  {
    assert PortsOf(after, k) == PortsOf(before, k) + ports;
    assert PortsOf(before, k) !! ports;
    forall j | j != k ensures PortsOf(after, j) == PortsOf(before, j) {
      assert forall p :: p in PortsOf(after, j) <==> p in PortsOf(before, j);
    }
  }

  // Taking, releasing and dropping ports never adds to a pool.
  lemma ShrinkingStep(cfg: Config, before: map<PortId, Place>, step: Step, after: map<PortId, Place>, k: PoolKey)
    requires step.Take? || step.Release? || step.Drop?
    requires Next(cfg, before, step, after)
    ensures PoolSize(after, k) <= PoolSize(before, k)
  {
    SubsetSize(PortsOf(after, k), PortsOf(before, k));
  }

  // No operation takes a pool beyond the limit.
  lemma StepBounded(cfg: Config, before: map<PortId, Place>, step: Step, after: map<PortId, Place>)
    requires cfg.max > 0 && cfg.batch >= 1
    requires Bounded(cfg, before) && Next(cfg, before, step, after)
    ensures Bounded(cfg, after)
  {
    hide PortsOf, PoolSize, Ungrouped, PartlyUngrouped;
    forall k ensures PoolSize(after, k) <= Limit(cfg) {
      assert PoolSize(before, k) <= Limit(cfg);
      match step
      case Populate(k', g, ports) =>
        PopulatedPorts(cfg, before, k', g, ports, after);
        if k != k' { SameSize(before, after, k); }
      case RemoveSg(sg, net) =>
        UngroupedKeepsPools(before, sg, net);
        SameSize(before, after, k);
      case RemoveSgPartly(sg, net) =>
        PartlyKeepsPools(before, after, sg, net);
        SameSize(before, after, k);
      case Return =>
      case _ => ShrinkingStep(cfg, before, step, after, k);
    }
  }

  lemma SameSize(before: map<PortId, Place>, after: map<PortId, Place>, k: PoolKey)
    requires PortsOf(after, k) == PortsOf(before, k)
    ensures PoolSize(after, k) == PoolSize(before, k)
  {
  }

  // From empty pools, no run of operations ever exceeds the limit.
  lemma {:induction false} RunBounded(cfg: Config, run: seq<map<PortId, Place>>, steps: seq<Step>)
    requires cfg.max > 0 && cfg.batch >= 1
    requires |run| == |steps| + 1
    requires forall p :: p in run[0] ==> !run[0][p].Available?
    requires forall i :: 0 <= i < |steps| ==> Next(cfg, run[i], steps[i], run[i + 1])
    ensures forall i :: 0 <= i < |run| ==> Bounded(cfg, run[i])
  {
    if |steps| == 0 {
      forall k ensures PoolSize(run[0], k) == 0 { assert PortsOf(run[0], k) == {}; }
    } else {
      var n := |steps| - 1;
      RunBounded(cfg, run[..n + 1], steps[..n]);
      assert Bounded(cfg, run[..n + 1][n]);
      StepBounded(cfg, run[n], steps[n], run[n + 1]);
      forall i | 0 <= i < |run| ensures Bounded(cfg, run[i]) {
        if i < n + 1 { assert run[i] == run[..n + 1][i]; }
      }
    }
  }

  // Population that passes the size test and gets all its ports reaches the minimum.
  lemma PopulateReachesMin(cfg: Config, before: map<PortId, Place>, k: PoolKey, g: seq<SgId>, ports: set<PortId>, after: map<PortId, Place>)
    requires Next(cfg, before, Populate(k, g, ports), after)
    requires |ports| == if cfg.batch >= cfg.min - PoolSize(before, k) then cfg.batch else cfg.min - PoolSize(before, k)
    ensures PoolSize(after, k) >= cfg.min
  {
    PopulatedPorts(cfg, before, k, g, ports, after);
  }

  // Removing a security group keeps every pool's ports, and afterwards no
  // list of that network names the group.
  lemma UngroupedKeepsPools(place: map<PortId, Place>, sg: SgId, net: string)
    ensures forall k :: PortsOf(Ungrouped(place, sg, net), k) == PortsOf(place, k)
    ensures forall p :: p in Ungrouped(place, sg, net) ==> !Moves(Ungrouped(place, sg, net)[p], sg, net)
    ensures forall p :: p in place && Ungrouped(place, sg, net)[p] != place[p] ==>
              place[p].key.net == net && Ungrouped(place, sg, net)[p] == Available(place[p].key, Some([]))
  {
    forall k ensures PortsOf(Ungrouped(place, sg, net), k) == PortsOf(place, k) {
      assert forall p :: p in PortsOf(Ungrouped(place, sg, net), k) <==> p in PortsOf(place, k);
    }
  }

  // A removal that stops half way keeps every pool's ports, and can be
  // completed: it leaves the same to do as if it had not begun.
  lemma PartlyKeepsPools(before: map<PortId, Place>, after: map<PortId, Place>, sg: SgId, net: string)
    requires PartlyUngrouped(before, after, sg, net)
    ensures forall k :: PortsOf(after, k) == PortsOf(before, k)
    ensures Ungrouped(after, sg, net) == Ungrouped(before, sg, net)
  {
    forall k ensures PortsOf(after, k) == PortsOf(before, k) {
      assert forall p :: p in PortsOf(after, k) <==> p in PortsOf(before, k);
    }
  }

  lemma PartlyThen(before: map<PortId, Place>, mid: map<PortId, Place>, after: map<PortId, Place>, sg: SgId, net: string)
    requires PartlyUngrouped(before, mid, sg, net) && PartlyUngrouped(mid, after, sg, net)
    ensures PartlyUngrouped(before, after, sg, net)
  {
  }

  // No port is new in Neutron, and those left have the groups they had.
  ghost predicate GroupsKept(now: map<PortId, seq<SgId>>, was: map<PortId, seq<SgId>>) {
    forall p :: p in now ==> p in was && now[p] == was[p]
  }

  lemma AllKept(neutron: map<PortId, seq<SgId>>)
    ensures GroupsKept(neutron, neutron)
  {
  }

  lemma KeptThen(was: map<PortId, seq<SgId>>, mid: map<PortId, seq<SgId>>, now: map<PortId, seq<SgId>>)
    requires GroupsKept(mid, was) && GroupsKept(now, mid)
    ensures GroupsKept(now, was)
  {
  }

  // The ports are new in Neutron, with these groups; nothing else changed there.
  ghost predicate Granted(now: map<PortId, seq<SgId>>, was: map<PortId, seq<SgId>>, ports: set<PortId>, groups: seq<SgId>) {
    && now.Keys == was.Keys + ports && ports !! was.Keys
    && forall p :: p in now ==> now[p] == if p in ports then groups else was[p]
  }

  // In Neutron exactly the ports that moved have lost their groups, all of them.
  ghost predicate GroupsTaken(before: map<PortId, Place>, after: map<PortId, Place>, was: map<PortId, seq<SgId>>, now: map<PortId, seq<SgId>>) {
    && was.Keys <= before.Keys <= after.Keys
    && now.Keys == was.Keys
    && forall p :: p in was ==> now[p] == if after[p] != before[p] then [] else was[p]
  }

  lemma GroupsTakenThen(before: map<PortId, Place>, mid: map<PortId, Place>, after: map<PortId, Place>, sg: SgId, net: string,
                        was: map<PortId, seq<SgId>>, between: map<PortId, seq<SgId>>, now: map<PortId, seq<SgId>>)
    requires PartlyUngrouped(before, mid, sg, net) && PartlyUngrouped(mid, after, sg, net)
    requires GroupsTaken(before, mid, was, between) && GroupsTaken(mid, after, between, now)
    ensures GroupsTaken(before, after, was, now)
  {
  }

  // ---------- the lists, one change at a time ----------

  // setdefault(k, {}).setdefault(g, []).append(p)
  function Append(lists: Lists, k: PoolKey, g: GroupKey, p: PortId): Lists {
    var pool := if k in lists then lists[k] else map[];
    var ports := if g in pool then pool[g] else [];
    lists[k := pool[g := ports + [p]]]
  }

  lemma AppendMatches(lists: Lists, place: map<PortId, Place>, k: PoolKey, g: GroupKey, p: PortId)
    requires ListsMatch(lists, place) && (p in place ==> !place[p].Available?)
    ensures ListsMatch(Append(lists, k, g, p), place[p := Available(k, g)])
  {
    var lists' := Append(lists, k, g, p);
    forall j, h, q ensures Listed(lists', j, h, q) <==> Listed(lists, j, h, q) || (j == k && h == g && q == p) {}
    forall j, h | j in lists' && h in lists'[j] ensures NoDup(lists'[j][h]) {
      if j == k && h == g && k in lists && g in lists[k] {
        assert forall q :: q in lists[k][g] ==> Listed(lists, k, g, q);
      }
    }
  }

  // pop() takes the last port of a list.
  lemma PopMatches(lists: Lists, place: map<PortId, Place>, k: PoolKey, g: GroupKey)
    requires ListsMatch(lists, place) && k in lists && g in lists[k] && lists[k][g] != []
    ensures var ports := lists[k][g];
            var p := ports[|ports| - 1];
            && p in place && place[p] == Available(k, g)
            && ListsMatch(lists[k := lists[k][g := ports[..|ports| - 1]]], place[p := InUse])
  {
    var ports := lists[k][g];
    var p := ports[|ports| - 1];
    var lists' := lists[k := lists[k][g := ports[..|ports| - 1]]];
    assert Listed(lists, k, g, p);
    assert p !in ports[..|ports| - 1];
    assert ports == ports[..|ports| - 1] + [p];
    forall j, h, q ensures Listed(lists', j, h, q) <==> Listed(lists, j, h, q) && q != p {
      if Listed(lists, j, h, q) && q == p { assert j == k && h == g; }
    }
  }

  // del lists[k][g]
  lemma DeleteGroupMatches(lists: Lists, place: map<PortId, Place>, k: PoolKey, g: GroupKey)
    requires ListsMatch(lists, place) && k in lists && g in lists[k]
    ensures ListsMatch(lists[k := lists[k] - {g}], place - SetOf(lists[k][g]))
  {
    var lists' := lists[k := lists[k] - {g}];
    forall j, h, q ensures Listed(lists', j, h, q) <==> Listed(lists, j, h, q) && !(j == k && h == g) {}
    forall q ensures Listed(lists, k, g, q) <==> q in lists[k][g] {}
  }

  // lists[k] = {}
  lemma ClearMatches(lists: Lists, place: map<PortId, Place>, k: PoolKey)
    requires ListsMatch(lists, place)
    ensures ListsMatch(lists[k := map[]], place - PortsOf(place, k))
  {
    var lists' := lists[k := map[]];
    forall j, h, q ensures Listed(lists', j, h, q) <==> Listed(lists, j, h, q) && j != k {}
  }

  // Changing the place of a port that stays off the lists.
  lemma OffListMatches(lists: Lists, place: map<PortId, Place>, p: PortId, at: Place)
    requires ListsMatch(lists, place) && p in place && !place[p].Available? && !at.Available?
    ensures ListsMatch(lists, place[p := at]) && ListsMatch(lists, place - {p})
  {
  }

  // ---------- which port a request gets ----------

  predicate Usable(pool: map<GroupKey, seq<PortId>>, g: GroupKey) { g in pool && pool[g] != [] }

  // The request finds no port: not in its own group, nor in any group the
  // last update names (in any group at all, if no update is recorded).
  ghost predicate NoPort(lists: Lists, updates: map<PoolKey, map<GroupKey, int>>, k: PoolKey, groups: seq<SgId>) {
    || k !in lists
    || (&& (forall p :: !Listed(lists, k, Some(groups), p))
        && if k in updates && updates[k] != map[]
           then forall g, p :: g in updates[k] ==> !Listed(lists, k, g, p)
           else forall g, p :: !Listed(lists, k, g, p))
  }

  lemma UsableListed(lists: Lists, k: PoolKey)
    requires k in lists
    ensures forall g :: Usable(lists[k], g) <==> exists p :: Listed(lists, k, g, p)
  {
    forall g | Usable(lists[k], g) ensures exists p :: Listed(lists, k, g, p) { assert Listed(lists, k, g, lists[k][g][0]); }
  }

  // A pool may hold ports and still have none for a request: its last update
  // names only a drained group. Without a recorded update, only an empty pool fails.
  lemma NoPortDespitePorts(k: PoolKey)
    ensures var lists: Lists := map[k := map[Some(["a"]) := [1], Some(["b"]) := []]];
            NoPort(lists, map[k := map[Some(["b"]) := 5]], k, ["c"]) && Listed(lists, k, Some(["a"]), 1)
    ensures forall lists: Lists, groups :: k in lists && (exists g, p :: Listed(lists, k, g, p)) ==> !NoPort(lists, map[], k, groups)
  {
    var updates: map<GroupKey, int> := map[Some(["b"]) := 5];
    assert Some(["b"]) in updates;
    assert "c"[0] != "a"[0] && "c"[0] != "b"[0] && "a"[0] != "b"[0];
    assert ["c"][0] != ["a"][0] && ["c"][0] != ["b"][0] && ["a"][0] != ["b"][0];
  }

  lemma VifAdded(lists: Lists, recyclable: map<PortId, PoolKey>, existing: map<PortId, Vif>, place: map<PortId, Place>,
                 k: PoolKey, g: GroupKey, vif: Vif)
    requires ListsMatch(lists, place) && RecyclableMatch(recyclable, place) && VifsMatch(existing, place) && vif.id !in place
    ensures var place' := place[vif.id := Available(k, g)];
            && ListsMatch(Append(lists, k, g, vif.id), place')
            && RecyclableMatch(recyclable, place') && VifsMatch(existing[vif.id := vif], place')
  {
    AppendMatches(lists, place, k, g, vif.id);
  }

  lemma GroupsAdded(was: map<PortId, seq<SgId>>, now: map<PortId, seq<SgId>>, place: map<PortId, Place>,
                    k: PoolKey, groups: seq<SgId>, ports: set<PortId>)
    requires GroupsMatch(was, place) && now.Keys == was.Keys + ports && ports !! place.Keys
    requires forall p :: p in now ==> now[p] == if p in was then was[p] else groups
    ensures GroupsMatch(now, WithPorts(place, k, Some(groups), ports))
  {
  }

  lemma WithPortsNext(place: map<PortId, Place>, k: PoolKey, g: GroupKey, ports: set<PortId>, p: PortId)
    requires p !in place.Keys + ports
    ensures WithPorts(place, k, g, ports + {p}) == WithPorts(place, k, g, ports)[p := Available(k, g)]
    ensures p !in WithPorts(place, k, g, ports)
  {
  }

  lemma NoPortsAdded(place: map<PortId, Place>, k: PoolKey, g: GroupKey)
    ensures WithPorts(place, k, g, {}) == place
  {
  }

  // The ports of freshly created vifs: distinct, and unknown before.
  ghost function IdsOf(vifs: seq<Vif>): set<PortId> {
    if vifs == [] then {} else IdsOf(vifs[..|vifs| - 1]) + {vifs[|vifs| - 1].id}
  }

  ghost predicate NewVifs(vifs: seq<Vif>, known: set<PortId>) {
    vifs == [] || (NewVifs(vifs[..|vifs| - 1], known) && vifs[|vifs| - 1].id !in known + IdsOf(vifs[..|vifs| - 1]))
  }

  lemma {:induction false} IdsCount(vifs: seq<Vif>, known: set<PortId>)
    requires NewVifs(vifs, known)
    ensures |IdsOf(vifs)| == |vifs| && IdsOf(vifs) !! known
  {
    if vifs != [] { IdsCount(vifs[..|vifs| - 1], known); }
  }

  lemma {:induction false} NewVifNext(vifs: seq<Vif>, known: set<PortId>, n: nat)
    requires NewVifs(vifs, known) && n < |vifs|
    ensures vifs[n].id !in known + IdsOf(vifs[..n])
    ensures IdsOf(vifs[..n + 1]) == IdsOf(vifs[..n]) + {vifs[n].id}
  {
    assert vifs[..n + 1][..n] == vifs[..n];
    var init := vifs[..|vifs| - 1];
    if n < |init| {
      NewVifNext(init, known, n);
      assert init[..n] == vifs[..n] && init[..n + 1] == vifs[..n + 1];
    } else {
      assert init == vifs[..n];
    }
  }

  class VifPoolDriver {
    const cfg: Config
    var available: Lists
    var existing: map<PortId, Vif>
    var recyclable: map<PortId, PoolKey>
    var lastUpdate: map<PoolKey, map<GroupKey, int>>
    var recovered: bool
    // Neutron's ports, with their security groups, and the next port id.
    var neutron: map<PortId, seq<SgId>>
    var next: PortId
    ghost var place: map<PortId, Place>

    ghost predicate Valid()
      reads this
    {
      && Consistent(available, recyclable, existing, neutron, place)
      && (forall p :: p in neutron ==> p < next)
      && (forall k, g :: k in lastUpdate && g in lastUpdate[k] ==> lastUpdate[k][g] >= 0)
    }

    constructor (cfg: Config)
      ensures Valid() && this.cfg == cfg && place == map[] && !recovered
    {
      this.cfg := cfg;
      available, existing, recyclable, lastUpdate, recovered, neutron, next := map[], map[], map[], map[], false, map[], 0;
      place := map[];
    }

    // All the ports of a pool, over all its groups.
    method Members(k: PoolKey) returns (members: seq<PortId>)
      requires ListsMatch(available, place)
      ensures NoDup(members) && SetOf(members) == PortsOf(place, k)
    {
      var pool := if k in available then available[k] else map[];
      members := [];
      var todo := pool.Keys;
      while todo != {}
        invariant todo <= pool.Keys
        invariant forall p :: p in members <==> exists g :: g in pool.Keys - todo && Listed(available, k, g, p)
        invariant NoDup(members)
        decreases |todo|
      {
        var g :| g in todo;
        ghost var before := members;
        members := members + pool[g];
        forall i, j | 0 <= i < |before| && 0 <= j < |pool[g]| ensures before[i] != pool[g][j] {
          assert before[i] in before && Listed(available, k, g, pool[g][j]);
          var h :| h in pool.Keys - todo && Listed(available, k, h, before[i]);
        }
        assert forall p :: p in members <==> p in before || p in pool[g];
        assert forall p :: p in pool[g] <==> Listed(available, k, g, p);
        todo := todo - {g};
      }
    }

    method GetPoolSize(k: PoolKey) returns (n: nat)
      requires ListsMatch(available, place)
      ensures n == PoolSize(place, k)
    {
      var members := Members(k);
      NoDupSize(members);
      n := |members|;
    }

    // Takes the last port of a list that has one.
    method Pop(k: PoolKey, g: GroupKey) returns (p: PortId)
      requires Valid() && k in available && Usable(available[k], g)
      modifies this`available, this`place
      ensures Valid() && place == old(place)[p := InUse]
      ensures p in old(place) && old(place[p]) == Available(k, g)
      ensures var ports := old(available[k][g]); ports != [] && p == ports[|ports| - 1]
      ensures available == old(available)[k := old(available[k])[g := old(available[k][g])[..|old(available[k][g])| - 1]]]
      ensures p in neutron && p in existing && existing[p].id == p && (g.Some? && g.value != [] ==> neutron[p] == g.value)
    {
      var ports := available[k][g];
      hide ListsMatch, RecyclableMatch, VifsMatch, GroupsMatch, Listed;
      PopConsistent(available, recyclable, existing, neutron, place, k, g);
      hide Consistent;
      p := ports[|ports| - 1];
      available := available[k := available[k][g := ports[..|ports| - 1]]];
      place := place[p := InUse];
    }

    lemma PopConsistent(lists: Lists, recyclable: map<PortId, PoolKey>, existing: map<PortId, Vif>, neutron: map<PortId, seq<SgId>>,
                        place: map<PortId, Place>, k: PoolKey, g: GroupKey)
      requires Consistent(lists, recyclable, existing, neutron, place) && k in lists && Usable(lists[k], g)
      ensures var ports := lists[k][g];
              var p := ports[|ports| - 1];
              && p in place && place[p] == Available(k, g) && p in neutron && p in existing && existing[p].id == p
              && (g.Some? && g.value != [] ==> neutron[p] == g.value)
              && Consistent(lists[k := lists[k][g := ports[..|ports| - 1]]], recyclable, existing, neutron, place[p := InUse])
    {
      PopMatches(lists, place, k, g);
      hide ListsMatch;
    }

    // A port in use may carry any groups.
    lemma InUseAnyGroups(lists: Lists, recyclable: map<PortId, PoolKey>, existing: map<PortId, Vif>, neutron: map<PortId, seq<SgId>>,
                         place: map<PortId, Place>, p: PortId, groups: seq<SgId>)
      requires Consistent(lists, recyclable, existing, neutron, place) && p in place && place[p].InUse?
      ensures Consistent(lists, recyclable, existing, neutron[p := groups], place)
    {
      hide ListsMatch, RecyclableMatch, VifsMatch;
    }

    // The group of the recorded update that was updated longest ago, among
    // those that have a port.
    method OldestGroup(k: PoolKey, updates: map<GroupKey, int>) returns (r: Option<GroupKey>)
      requires k in available && forall g :: g in updates ==> updates[g] >= 0
      ensures r.None? ==> forall g :: g in updates ==> !Usable(available[k], g)
      ensures r.Some? ==> r.value in updates && Usable(available[k], r.value)
      ensures r.Some? ==> forall g :: g in updates && Usable(available[k], g) ==> updates[r.value] <= updates[g]
    {
      var minDate := -1;
      var minGroup: GroupKey := None;
      var todo := updates.Keys;
      while todo != {}
        invariant todo <= updates.Keys
        invariant minDate == -1 ==> forall g :: g in updates.Keys - todo ==> !Usable(available[k], g)
        invariant minDate != -1 ==> minGroup in updates && minDate == updates[minGroup] && Usable(available[k], minGroup)
        invariant minDate != -1 ==> forall g :: g in updates.Keys - todo && Usable(available[k], g) ==> minDate <= updates[g]
        decreases |todo|
      {
        var g :| g in todo;
        todo := todo - {g};
        if Usable(available[k], g) && (minDate == -1 || updates[g] < minDate) {
          minDate, minGroup := updates[g], g;
        }
      }
      return if minDate == -1 then None else Some(minGroup);
    }

    // No group of the last update that still has a port was updated before `g`.
    static ghost predicate OldestOf(lists: Lists, updates: map<PoolKey, map<GroupKey, int>>, k: PoolKey, g: GroupKey) {
      k in lists && g in lists[k]
      && (k in updates && updates[k] != map[] ==>
            g in updates[k] && forall h, p :: h in updates[k] && Listed(lists, k, h, p) ==> updates[k][g] <= updates[k][h])
    }

    // A port for a pod, or none for now. The port leaves its pool, and comes
    // with the security groups asked for.
    method GetPortFromPool(k: PoolKey, groups: seq<SgId>) returns (r: Option<PortId>)
      requires Valid()
      modifies this`available, this`place, this`neutron
      ensures Valid()
      ensures r.None? <==> NoPort(old(available), lastUpdate, k, groups)
      ensures r.None? ==> place == old(place) && available == old(available) && neutron == old(neutron)
      ensures r.Some? ==> Next(cfg, old(place), Take(r.value), place) && old(place[r.value]).key == k
      ensures r.Some? ==> r.value in existing && existing[r.value].id == r.value
      ensures r.Some? && groups != [] ==> neutron[r.value] == groups
      ensures r.Some? ==> var g := old(place[r.value]).group;
                && (if exists p :: Listed(old(available), k, Some(groups), p) then g == Some(groups) && neutron == old(neutron)
                    else neutron == old(neutron)[r.value := groups] && OldestOf(old(available), lastUpdate, k, g))
                && var ports := old(available)[k][g]; ports != [] && r.value == ports[|ports| - 1]
    {
      hide Consistent;
      if k !in available { return None; }
      UsableListed(available, k);
      var own: GroupKey := Some(groups);
      if Usable(available[k], own) {
        var p := Pop(k, own);
        return Some(p);
      }
      var updates := if k in lastUpdate then lastUpdate[k] else map[];
      var group: Option<GroupKey>;
      if updates == map[] {
        if g :| g in available[k] && Usable(available[k], g) { group := Some(g); } else { group := None; }
      } else {
        group := OldestGroup(k, updates);
      }
      if group.None? { return None; }
      var p := Pop(k, group.value);
      InUseAnyGroups(available, recyclable, existing, neutron, place, p, groups);
      neutron := neutron[p := groups];
      return Some(p);
    }

    // A pod is gone: its port waits to be recycled. Releasing a port that is
    // still on a list would put it in two places.
    method ReleaseVif(vif: Vif, k: PoolKey)
      requires Valid() && vif.id in place
      modifies this`existing, this`recyclable, this`place
      ensures !old(place[vif.id]).Available? ==> Valid() && Next(cfg, old(place), Release(vif.id, k), place)
      ensures old(place[vif.id]).Available? ==> forall at :: !(ListsMatch(available, at) && RecyclableMatch(recyclable, at))
      ensures recyclable == old(recyclable)[vif.id := k]
    {
      hide ListsMatch, RecyclableMatch, VifsMatch, GroupsMatch;
      if place[vif.id].Available? {
        InTwoPlaces(available, recyclable, place, vif.id, k);
      } else {
        ReleaseMatches(available, recyclable, existing, neutron, place, vif, k);
      }
      hide Consistent;
      if vif.id !in existing { existing := existing[vif.id := vif]; }
      recyclable := recyclable[vif.id := k];
      if !place[vif.id].Available? { place := place[vif.id := Recyclable(k)]; }
    }

    // A listed port that is recyclable, too, fits no account of the places.
    lemma InTwoPlaces(lists: Lists, recyclable: map<PortId, PoolKey>, place: map<PortId, Place>, p: PortId, k: PoolKey)
      requires ListsMatch(lists, place) && p in place && place[p].Available?
      ensures forall at :: !(ListsMatch(lists, at) && RecyclableMatch(recyclable[p := k], at))
    {
      assert Listed(lists, place[p].key, place[p].group, p);
    }

    lemma ReleaseMatches(lists: Lists, recyclable: map<PortId, PoolKey>, existing: map<PortId, Vif>,
                         neutron: map<PortId, seq<SgId>>, place: map<PortId, Place>, vif: Vif, k: PoolKey)
      requires Consistent(lists, recyclable, existing, neutron, place) && vif.id in place && !place[vif.id].Available?
      ensures Consistent(lists, recyclable[vif.id := k], if vif.id in existing then existing else existing[vif.id := vif],
                         neutron, place[vif.id := Recyclable(k)])
    {
      OffListMatches(lists, place, vif.id, Recyclable(k));
    }

    // The vif driver: up to `num` new ports, as many as Neutron grants.
    method RequestVifs(groups: seq<SgId>, num: nat, grant: nat) returns (vifs: seq<Vif>)
      requires forall p :: p in neutron ==> p < next
      modifies this`neutron, this`next
      ensures |vifs| == Least(num, grant) && NewVifs(vifs, old(neutron.Keys))
      ensures neutron.Keys == old(neutron.Keys) + IdsOf(vifs)
      ensures forall p :: p in neutron ==> p < next && neutron[p] == if p in old(neutron) then old(neutron[p]) else groups
    {
      vifs := [];
      for i := 0 to Least(num, grant)
        invariant |vifs| == i && NewVifs(vifs, old(neutron.Keys))
        invariant neutron.Keys == old(neutron.Keys) + IdsOf(vifs)
        invariant forall p :: p in neutron ==> p < next && neutron[p] == if p in old(neutron) then old(neutron[p]) else groups
      {
        var vif := Vif(next);
        assert (vifs + [vif])[..i] == vifs;
        vifs := vifs + [vif];
        neutron := neutron[next := groups];
        next := next + 1;
      }
    }

    static function Most(a: nat, b: nat): nat { if a >= b then a else b }
    static function Least(a: nat, b: nat): nat { if a <= b then a else b }

    // When the group was last populated, as far as it is recorded.
    function LastFor(k: PoolKey, groups: seq<SgId>): int
      reads this
    {
      if k in lastUpdate && Some(groups) in lastUpdate[k] then lastUpdate[k][Some(groups)] else 0
    }

    predicate TooSoon(k: PoolKey, groups: seq<SgId>, now: int)
      reads this
    {
      k in lastUpdate && lastUpdate[k] != map[] && now - cfg.frequency < LastFor(k, groups)
    }

    // An update of the pool is recorded, and the interval since the group's own
    // is not over; a group without one counts as updated at 0.
    static ghost predicate WithinInterval(updates: map<PoolKey, map<GroupKey, int>>, k: PoolKey, groups: seq<SgId>, now: int, interval: int) {
      k in updates && updates[k] != map[]
      && now < interval + if Some(groups) in updates[k] then updates[k][Some(groups)] else 0
    }

    // Fills a pool that is below its minimum, at most once per interval: with
    // the batch or with what is missing, whichever is more, unless Neutron
    // grants less. Every write of the last update replaces all the groups
    // recorded for the pool.
    method PopulatePool(k: PoolKey, groups: seq<SgId>, now: int, grant: nat) returns (ready: bool, ports: set<PortId>)
      requires Valid() && now >= 0
      modifies this
      ensures Valid() && ready == old(recovered) && recovered == old(recovered)
      ensures WithinInterval(old(lastUpdate), k, groups, now, cfg.frequency) || !ready || PoolSize(old(place), k) >= cfg.min ==>
                place == old(place) && neutron == old(neutron)
      ensures WithinInterval(old(lastUpdate), k, groups, now, cfg.frequency) || !ready ==> lastUpdate == old(lastUpdate)
      ensures ready && !WithinInterval(old(lastUpdate), k, groups, now, cfg.frequency) && PoolSize(old(place), k) < cfg.min ==>
                && Next(cfg, old(place), Populate(k, groups, ports), place)
                && BatchOrGrant(|ports|, cfg.batch, cfg.min - PoolSize(old(place), k), grant)
                && Granted(neutron, old(neutron), ports, groups)
      ensures ready && !WithinInterval(old(lastUpdate), k, groups, now, cfg.frequency) ==>
                lastUpdate == old(lastUpdate)[k := map[Some(groups) :=
                  if PoolSize(old(place), k) < cfg.min && ports == {} then old(LastFor(k, groups)) else now]]
    {
      hide Consistent, PortsOf, PoolSize, Next, Granted, BatchOrGrant, TooSoon, WithinInterval, LastFor;
      TooSoonIff(k, groups, now);
      ready, ports := recovered, {};
      if !recovered || TooSoon(k, groups, now) { return; }
      var last := LastFor(k, groups);
      lastUpdate := lastUpdate[k := map[Some(groups) := now]];
      var short;
      short, ports := Fill(k, groups, grant);
      if short && ports == {} { lastUpdate := lastUpdate[k := map[Some(groups) := last]]; }
    }

    // As many as granted, up to the batch or what is missing, whichever is more.
    static ghost predicate BatchOrGrant(n: nat, batch: nat, missing: nat, grant: nat) {
      n <= grant && (n < grant ==> n >= batch && n >= missing) && (n <= batch || n <= missing)
    }

    // A batch, or what is missing, for a pool below its minimum.
    method Fill(k: PoolKey, groups: seq<SgId>, grant: nat) returns (short: bool, ports: set<PortId>)
      requires Valid()
      modifies this`neutron, this`next, this`existing, this`available, this`place
      ensures Valid() && short == (PoolSize(old(place), k) < cfg.min)
      ensures !short ==> ports == {} && place == old(place) && neutron == old(neutron)
      ensures short ==>
                && Next(cfg, old(place), Populate(k, groups, ports), place)
                && BatchOrGrant(|ports|, cfg.batch, cfg.min - PoolSize(old(place), k), grant)
                && Granted(neutron, old(neutron), ports, groups)
    {
      hide ListsMatch, RecyclableMatch, VifsMatch, GroupsMatch, PortsOf, PoolSize, WithPorts, Next, Granted;
      ghost var was := place;
      var size := GetPoolSize(k);
      hide Consistent;
      short, ports := size < cfg.min, {};
      if short {
        ports := TopUp(k, groups, Most(cfg.batch, cfg.min - size), grant);
        PopulateIsStep(cfg, was, k, groups, ports);
      }
    }

    lemma TooSoonIff(k: PoolKey, groups: seq<SgId>, now: int)
      requires Valid()
      ensures TooSoon(k, groups, now) <==> WithinInterval(lastUpdate, k, groups, now, cfg.frequency)
      ensures LastFor(k, groups) >= 0
    {
    }

    lemma PopulateIsStep(cfg: Config, place: map<PortId, Place>, k: PoolKey, groups: seq<SgId>, ports: set<PortId>)
      requires ports !! place.Keys && PoolSize(place, k) < cfg.min && |ports| <= Most(cfg.batch, cfg.min - PoolSize(place, k))
      ensures Next(cfg, place, Populate(k, groups, ports), WithPorts(place, k, Some(groups), ports))
    {
    }

    // Creates up to `num` ports and puts them on the list.
    method TopUp(k: PoolKey, groups: seq<SgId>, num: nat, grant: nat) returns (ports: set<PortId>)
      requires Valid()
      modifies this`neutron, this`next, this`existing, this`available, this`place
      ensures Valid() && |ports| == Least(num, grant) && ports !! old(place.Keys)
      ensures Granted(neutron, old(neutron), ports, groups)
      ensures place == WithPorts(old(place), k, Some(groups), ports)
    {
      ghost var was := neutron;
      var vifs := RequestVifs(groups, num, grant);
      ports := Ids(vifs);
      IdsCount(vifs, place.Keys);
      GroupsAdded(was, neutron, place, k, groups, ports);
      AddVifs(k, groups, vifs);
    }

    method Ids(vifs: seq<Vif>) returns (ids: set<PortId>)
      ensures ids == IdsOf(vifs)
    {
      ids := {};
      for n := 0 to |vifs|
        invariant ids == IdsOf(vifs[..n])
      {
        assert vifs[..n + 1][..n] == vifs[..n];
        ids := ids + {vifs[n].id};
      }
      assert vifs[..|vifs|] == vifs;
    }

    // Puts new vifs on a list.
    method AddVifs(k: PoolKey, groups: seq<SgId>, vifs: seq<Vif>)
      requires ListsMatch(available, place) && RecyclableMatch(recyclable, place) && VifsMatch(existing, place)
      requires NewVifs(vifs, place.Keys)
      modifies this`existing, this`available, this`place
      ensures ListsMatch(available, place) && RecyclableMatch(recyclable, place) && VifsMatch(existing, place)
      ensures place == WithPorts(old(place), k, Some(groups), IdsOf(vifs))
    {
      hide ListsMatch, RecyclableMatch, VifsMatch, Append, WithPorts, NewVifs;
      ghost var was := place;
      NoPortsAdded(place, k, Some(groups));
      for n := 0 to |vifs|
        invariant ListsMatch(available, place) && RecyclableMatch(recyclable, place) && VifsMatch(existing, place)
        invariant place == WithPorts(was, k, Some(groups), IdsOf(vifs[..n]))
      {
        var vif := vifs[n];
        NewVifNext(vifs, was.Keys, n);
        WithPortsNext(was, k, Some(groups), IdsOf(vifs[..n]), vif.id);
        VifAdded(available, recyclable, existing, place, k, Some(groups), vif);
        existing := existing[vif.id := vif];
        available := Append(available, k, Some(groups), vif.id);
        place := place[vif.id := Available(k, Some(groups))];
      }
      assert vifs[..|vifs|] == vifs;
    }

    // ---------- recycling ----------

    // The group a recycled port goes to: its current groups if Neutron
    // reported them, which is not asked when ports are renamed for debugging.
    function ReturnGroup(p: PortId, reported: set<PortId>): GroupKey
      reads this
    {
      if !cfg.debug && p in reported && p in neutron then Some(neutron[p]) else None
    }

    // Recycles one port. It goes back to its pool, or is deleted when the pool
    // is full; a failed rename or subport removal leaves it where it is.
    method ReturnPort(p: PortId, reported: set<PortId>, renameFails: set<PortId>, subportFails: set<PortId>)
      requires Valid() && p in recyclable
      modifies this`available, this`existing, this`recyclable, this`neutron, this`place
      ensures Valid() && Returned(cfg, old(place), place)
      ensures p in recyclable ==> p in Stuck(renameFails, subportFails)
      ensures place == if cfg.max == 0 || PoolSize(old(place), old(recyclable[p])) < cfg.max
                       then if cfg.debug && p in renameFails then old(place)
                            else old(place)[p := Available(old(recyclable[p]), if cfg.debug || p !in reported then None else Some(old(neutron)[p]))]
                       else if cfg.nested && p in subportFails then old(place) else old(place) - {p}
      ensures recyclable == if place == old(place) then old(recyclable) else old(recyclable) - {p}
      ensures neutron == if p in place then old(neutron) else old(neutron) - {p}
      ensures existing == if p in place then old(existing) else old(existing) - {p}
    {
      hide PortsOf, PoolSize, ListsMatch, RecyclableMatch, VifsMatch, GroupsMatch, Returned;
      RecyclableKnown();
      NothingReturned(cfg, place);
      var size := GetPoolSize(recyclable[p]);
      hide Consistent;
      if cfg.max == 0 || size < cfg.max {
        if cfg.debug && p in renameFails { return; }
        PutBack(p, ReturnGroup(p, reported));
      } else {
        if cfg.nested && p in subportFails { return; }
        DeletePort(p);
      }
    }

    method PutBack(p: PortId, g: GroupKey)
      requires Valid() && p in recyclable && (cfg.max == 0 || PoolSize(place, recyclable[p]) < cfg.max)
      requires g.Some? ==> p in neutron && g.value == neutron[p]
      modifies this`available, this`recyclable, this`place
      ensures Valid() && Returned(cfg, old(place), place)
      ensures recyclable == old(recyclable) - {p} && place == old(place)[p := Available(old(recyclable[p]), g)]
    {
      hide ListsMatch, RecyclableMatch, VifsMatch, GroupsMatch, PortsOf, PoolSize, Returned, Append;
      var k := recyclable[p];
      PutBackMatches(available, recyclable, existing, neutron, place, p, g);
      BackOnList(cfg, place, p, g);
      hide Consistent, Returned, Append;
      available := Append(available, k, g, p);
      place := place[p := Available(k, g)];
      recyclable := recyclable - {p};
    }

    lemma PutBackMatches(lists: Lists, recyclable: map<PortId, PoolKey>, existing: map<PortId, Vif>,
                         neutron: map<PortId, seq<SgId>>, place: map<PortId, Place>, p: PortId, g: GroupKey)
      requires Consistent(lists, recyclable, existing, neutron, place) && p in recyclable
      requires g.Some? ==> p in neutron && g.value == neutron[p]
      ensures p in place && place[p] == Recyclable(recyclable[p])
      ensures Consistent(Append(lists, recyclable[p], g, p), recyclable - {p}, existing, neutron, place[p := Available(recyclable[p], g)])
    {
      AppendMatches(lists, place, recyclable[p], g, p);
    }

    method DeletePort(p: PortId)
      requires Valid() && p in recyclable && cfg.max > 0 && PoolSize(place, recyclable[p]) >= cfg.max
      modifies this`existing, this`recyclable, this`neutron, this`place
      ensures Valid() && Returned(cfg, old(place), place)
      ensures recyclable == old(recyclable) - {p} && place == old(place) - {p} && neutron == old(neutron) - {p}
      ensures existing == old(existing) - {p}
    {
      hide PortsOf, PoolSize, Returned, ListsMatch, RecyclableMatch, VifsMatch, GroupsMatch;
      DeleteMatches(available, recyclable, existing, neutron, place, p);
      DroppedFull(cfg, recyclable, place, p);
      hide Consistent;
      existing := existing - {p};
      neutron := neutron - {p};
      place := place - {p};
      recyclable := recyclable - {p};
    }

    lemma DroppedFull(cfg: Config, recyclable: map<PortId, PoolKey>, place: map<PortId, Place>, p: PortId)
      requires RecyclableMatch(recyclable, place) && p in recyclable
      requires cfg.max > 0 && PoolSize(place, recyclable[p]) >= cfg.max
      ensures Returned(cfg, place, place - {p})
    {
      Dropped(cfg, place, p);
    }

    lemma DeleteMatches(lists: Lists, recyclable: map<PortId, PoolKey>, existing: map<PortId, Vif>,
                        neutron: map<PortId, seq<SgId>>, place: map<PortId, Place>, p: PortId)
      requires Consistent(lists, recyclable, existing, neutron, place) && p in recyclable
      ensures p in place && place[p] == Recyclable(recyclable[p])
      ensures Consistent(lists, recyclable - {p}, existing - {p}, neutron - {p}, place - {p})
    {
      OffListMatches(lists, place, p, InUse);
    }

    lemma NothingReturned(cfg: Config, place: map<PortId, Place>)
      ensures Returned(cfg, place, place)
    {
    }

    lemma BackOnList(cfg: Config, place: map<PortId, Place>, p: PortId, g: GroupKey)
      requires p in place && place[p].Recyclable? && (cfg.max == 0 || PoolSize(place, place[p].key) < cfg.max)
      ensures Returned(cfg, place, place[p := Available(place[p].key, g)])
    {
      var k := place[p].key;
      var after := place[p := Available(k, g)];
      assert PortsOf(after, k) == PortsOf(place, k) + {p};
      assert PoolSize(after, k) == PoolSize(place, k) + 1;
      forall j | j != k ensures PoolSize(after, j) == PoolSize(place, j) {
        assert PortsOf(after, j) == PortsOf(place, j);
      }
    }

    lemma Dropped(cfg: Config, place: map<PortId, Place>, p: PortId)
      requires p in place && place[p].Recyclable? && cfg.max > 0 && PoolSize(place, place[p].key) >= cfg.max
      ensures Returned(cfg, place, place - {p})
    {
      forall j ensures PoolSize(place - {p}, j) == PoolSize(place, j) {
        assert PortsOf(place - {p}, j) == PortsOf(place, j);
      }
    }

    lemma ReturnedTwice(cfg: Config, a: map<PortId, Place>, b: map<PortId, Place>, c: map<PortId, Place>)
      requires Returned(cfg, a, b) && Returned(cfg, b, c)
      ensures Returned(cfg, a, c)
    {
      forall p | p in c && a[p].Recyclable? ensures c[p] == a[p] || (c[p].Available? && c[p].key == a[p].key) {
        assert p in b;
      }
      forall p | p in a && p !in c ensures cfg.max > 0 && PoolSize(c, a[p].key) >= cfg.max {
        if p in b {
          assert b[p] == a[p];
        } else {
          assert PoolSize(b, a[p].key) >= cfg.max && PoolSize(c, a[p].key) >= PoolSize(b, a[p].key);
        }
      }
    }

    // The ports a round may leave behind: those whose rename or subport removal failed.
    function Stuck(renameFails: set<PortId>, subportFails: set<PortId>): set<PortId> {
      (if cfg.debug then renameFails else {}) + (if cfg.nested then subportFails else {})
    }

    // One round of recycling, over the ports recyclable when it starts.
    method TriggerReturnToPool(reported: set<PortId>, renameFails: set<PortId>, subportFails: set<PortId>)
      requires Valid()
      modifies this`available, this`existing, this`recyclable, this`neutron, this`place
      ensures Valid() && Next(cfg, old(place), Return, place) && GroupsKept(neutron, old(neutron))
      ensures recyclable.Keys <= old(recyclable.Keys) * Stuck(renameFails, subportFails)
      ensures forall p :: p in old(recyclable) && p in place && place[p].Available? ==>
                place[p].group == if cfg.debug || p !in reported then None else Some(old(neutron)[p])
    {
      hide GroupsKept, Returned, ListsMatch, RecyclableMatch, VifsMatch, GroupsMatch, Stuck, RoundSoFar;
      var todo := recyclable.Keys;
      ghost var groups := map p | p in recyclable :: ReturnGroup(p, reported);
      ghost var stuck := Stuck(renameFails, subportFails);
      NothingReturned(cfg, place);
      RecyclableKnown();
      hide Consistent, Regrouped;
      AllKept(neutron);
      RoundStarts(cfg, place, todo, groups, stuck);
      while todo != {}
        invariant Valid() && Pending(todo, groups, reported) && GroupsKept(neutron, old(neutron))
        invariant RoundSoFar(cfg, old(place), place, todo, recyclable.Keys, old(recyclable.Keys), groups, stuck)
        decreases |todo|
      {
        var p :| p in todo;
        ghost var mid := neutron;
        ReturnNext(p, reported, renameFails, subportFails, old(place), todo, old(recyclable.Keys), groups);
        KeptThen(old(neutron), mid, neutron);
        todo := todo - {p};
      }
      RoundEnds(cfg, old(place), place, recyclable.Keys, old(recyclable.Keys), groups, stuck);
    }

    // The ports to do are recyclable, and `groups` says where each would go.
    ghost predicate Pending(todo: set<PortId>, groups: map<PortId, GroupKey>, reported: set<PortId>)
      reads this
    {
      forall p :: p in todo ==> p in recyclable && p in groups && p in neutron && groups[p] == ReturnGroup(p, reported)
    }

    // The next port of a round.
    method ReturnNext(p: PortId, reported: set<PortId>, renameFails: set<PortId>, subportFails: set<PortId>,
                      ghost was: map<PortId, Place>, ghost todo: set<PortId>, ghost recycled: set<PortId>,
                      ghost groups: map<PortId, GroupKey>)
      requires Valid() && p in todo && Pending(todo, groups, reported)
      requires RoundSoFar(cfg, was, place, todo, recyclable.Keys, recycled, groups, Stuck(renameFails, subportFails))
      modifies this`available, this`existing, this`recyclable, this`neutron, this`place
      ensures Valid() && Pending(todo - {p}, groups, reported) && GroupsKept(neutron, old(neutron))
      ensures RoundSoFar(cfg, was, place, todo - {p}, recyclable.Keys, recycled, groups, Stuck(renameFails, subportFails))
    {
      hide Consistent, Returned, RoundSoFar, Stuck;
      ghost var before, left, k := place, recyclable.Keys, recyclable[p];
      ReturnPort(p, reported, renameFails, subportFails);
      RoundContinues(cfg, was, before, place, todo, left, recyclable.Keys, recycled, groups,
                     Stuck(renameFails, subportFails), p, k);
    }

    // A round of recycling that still has `todo` to do and leaves `left` recyclable.
    static ghost predicate RoundSoFar(cfg: Config, was: map<PortId, Place>, now: map<PortId, Place>, todo: set<PortId>,
                                      left: set<PortId>, recycled: set<PortId>, groups: map<PortId, GroupKey>, stuck: set<PortId>) {
      && Returned(cfg, was, now) && Regrouped(recycled, now, groups)
      && todo <= left <= recycled && left - todo <= stuck
    }

    lemma RoundStarts(cfg: Config, was: map<PortId, Place>, todo: set<PortId>, groups: map<PortId, GroupKey>, stuck: set<PortId>)
      requires forall p :: p in todo ==> p in was && was[p].Recyclable?
      ensures RoundSoFar(cfg, was, was, todo, todo, todo, groups, stuck)
    {
      NothingReturned(cfg, was);
    }

    lemma RoundEnds(cfg: Config, was: map<PortId, Place>, now: map<PortId, Place>, left: set<PortId>, recycled: set<PortId>,
                    groups: map<PortId, GroupKey>, stuck: set<PortId>)
      requires RoundSoFar(cfg, was, now, {}, left, recycled, groups, stuck)
      ensures Next(cfg, was, Return, now) && Regrouped(recycled, now, groups) && left <= recycled * stuck
    {
    }

    lemma RoundContinues(cfg: Config, was: map<PortId, Place>, before: map<PortId, Place>, now: map<PortId, Place>, todo: set<PortId>,
                         left: set<PortId>, left': set<PortId>, recycled: set<PortId>, groups: map<PortId, GroupKey>,
                         stuck: set<PortId>, p: PortId, k: PoolKey)
      requires RoundSoFar(cfg, was, before, todo, left, recycled, groups, stuck) && p in todo && p in groups
      requires Returned(cfg, before, now)
      requires (left' == left && p in stuck) || left' == left - {p}
      requires now == before || now == before - {p} || now == before[p := Available(k, groups[p])]
      ensures RoundSoFar(cfg, was, now, todo - {p}, left', recycled, groups, stuck)
    {
      ReturnedTwice(cfg, was, before, now);
      forall q | q in recycled && q in now && now[q].Available? ensures q in groups && now[q].group == groups[q] {
        if q != p { assert q in before && before[q] == now[q]; }
      }
    }

    // The recycled ports are back on the lists of their groups.
    static ghost predicate Regrouped(recycled: set<PortId>, place: map<PortId, Place>, groups: map<PortId, GroupKey>) {
      forall p :: p in recycled && p in place && place[p].Available? ==> p in groups && place[p].group == groups[p]
    }

    lemma RecyclableKnown()
      requires Valid()
      ensures forall p :: p in recyclable ==> p in neutron && p in place && place[p].Recyclable?
    {
    }

    // ---------- deleting a network ----------

    // Deletes every port of a pool, with its vif and its Neutron port.
    method ClearPool(k: PoolKey)
      requires Valid()
      modifies this`available, this`existing, this`neutron, this`place
      ensures Valid() && place == old(place) - PortsOf(old(place), k)
      ensures available == old(available)[k := map[]] && GroupsKept(neutron, old(neutron))
    {
      hide ListsMatch, RecyclableMatch, VifsMatch, GroupsMatch, PortsOf, NoDup;
      var ports := Members(k);
      ClearKeepsMaps(available, recyclable, existing, neutron, place, k);
      hide Consistent;
      DeletePorts(ports);
      place := place - PortsOf(place, k);
      available := available[k := map[]];
    }

    method DeletePorts(ports: seq<PortId>)
      modifies this`existing, this`neutron
      ensures existing == old(existing) - SetOf(ports) && neutron == old(neutron) - SetOf(ports)
    {
      for n := 0 to |ports|
        invariant existing == old(existing) - SetOf(ports[..n]) && neutron == old(neutron) - SetOf(ports[..n])
      {
        assert ports[..n + 1] == ports[..n] + [ports[n]];
        SetOfSnoc(ports[..n], ports[n]);
        existing := existing - {ports[n]};
        neutron := neutron - {ports[n]};
      }
      assert ports[..|ports|] == ports;
    }

    lemma ClearKeepsMaps(lists: Lists, recyclable: map<PortId, PoolKey>, existing: map<PortId, Vif>,
                         neutron: map<PortId, seq<SgId>>, place: map<PortId, Place>, k: PoolKey)
      requires Consistent(lists, recyclable, existing, neutron, place)
      ensures var gone := PortsOf(place, k);
              Consistent(lists[k := map[]], recyclable, existing - gone, neutron - gone, place - gone)
    {
      ClearMatches(lists, place, k);
    }

    // The available ports a network's deletion removes.
    static ghost function NetPorts(place: map<PortId, Place>, net: string, kept: set<PoolKey>): set<PortId> {
      set p | p in place && place[p].Available? && place[p].key.net == net && place[p].key !in kept
    }

    // Empties the pools of a network; a nested pool whose subports cannot be
    // detached is kept. `mid` is the state after the recycling round.
    method DeleteNetworkPools(net: string, reported: set<PortId>, renameFails: set<PortId>, subportFails: set<PortId>,
                              trunkFails: set<PoolKey>)
      returns (ready: bool, ghost mid: map<PortId, Place>)
      requires Valid()
      modifies this`available, this`existing, this`recyclable, this`neutron, this`place
      ensures Valid() && ready == recovered && GroupsKept(neutron, old(neutron))
      ensures !ready ==> place == old(place) && recyclable == old(recyclable) && available == old(available)
      ensures ready ==> Next(cfg, old(place), Return, mid)
      ensures ready ==> place == mid - NetPorts(mid, net, if cfg.nested then trunkFails else {})
      ensures forall p :: p in old(place) && p !in place ==> p !in existing && p !in neutron
      ensures ready && Stuck(renameFails, subportFails) == {} && (cfg.nested ==> trunkFails == {}) ==>
                forall p :: p in place && !place[p].InUse? ==> place[p].key.net != net
    {
      ready, mid := recovered, place;
      if !recovered { return; }
      TriggerReturnToPool(reported, renameFails, subportFails);
      mid := place;
      var kept := if cfg.nested then trunkFails else {};
      EmptyNet(net, kept);
      NetEmptied(available, recyclable, existing, neutron, mid, place, net, kept);
    }

    lemma NetEmptied(lists: Lists, recyclable: map<PortId, PoolKey>, existing: map<PortId, Vif>, neutron: map<PortId, seq<SgId>>,
                     mid: map<PortId, Place>, place: map<PortId, Place>, net: string, kept: set<PoolKey>)
      requires Consistent(lists, recyclable, existing, neutron, place)
      requires place == mid - NetPorts(mid, net, kept)
      ensures forall p :: p !in place ==> p !in existing && p !in neutron
      ensures recyclable.Keys == {} && kept == {} ==> forall p :: p in place && !place[p].InUse? ==> place[p].key.net != net
    {
    }

    method EmptyNet(net: string, kept: set<PoolKey>)
      requires Valid()
      modifies this`available, this`existing, this`neutron, this`place
      ensures Valid() && place == old(place) - NetPorts(old(place), net, kept) && GroupsKept(neutron, old(neutron))
    {
      var todo := available.Keys;
      ghost var was := place;
      NetDone(available, was, net, kept, todo);
      hide Consistent, NetPorts, PortsOf;
      while todo != {}
        invariant Valid() && GroupsKept(neutron, old(neutron))
        invariant place == was - NetPorts(was, net, kept + todo)
        decreases |todo|
      {
        var k :| k in todo;
        if k.net == net && k !in kept { ClearPool(k); }
        NetNext(was, net, kept, todo, k);
        todo := todo - {k};
      }
      assert kept + todo == kept;
    }

    lemma NetDone(lists: Lists, place: map<PortId, Place>, net: string, kept: set<PoolKey>, todo: set<PoolKey>)
      requires ListsMatch(lists, place) && todo == lists.Keys
      ensures NetPorts(place, net, kept + todo) == {} && place - {} == place
    {
      forall p | p in place && place[p].Available? ensures place[p].key in todo {
        assert Listed(lists, place[p].key, place[p].group, p);
      }
    }

    lemma NetNext(place: map<PortId, Place>, net: string, kept: set<PoolKey>, todo: set<PoolKey>, k: PoolKey)
      requires k in todo
      ensures var before := place - NetPorts(place, net, kept + todo);
              place - NetPorts(place, net, kept + (todo - {k}))
                == if k.net == net && k !in kept then before - PortsOf(before, k) else before
    {
      var before := place - NetPorts(place, net, kept + todo);
      if k.net == net && k !in kept {
        assert NetPorts(place, net, kept + (todo - {k})) == NetPorts(place, net, kept + todo) + PortsOf(before, k);
      } else {
        assert NetPorts(place, net, kept + (todo - {k})) == NetPorts(place, net, kept + todo);
      }
    }

    // ---------- removing a security group ----------

    static predicate Names(g: GroupKey, sg: SgId) { g.Some? && sg in g.value }

    // Moves the ports of one list to the list without groups.
    method MoveGroup(k: PoolKey, g: GroupKey)
      requires Valid() && k in available && g in available[k] && g != Some([])
      modifies this`available, this`neutron, this`place, this`lastUpdate
      ensures Valid() && place == GroupMoved(old(place), k, g)
      ensures neutron.Keys == old(neutron.Keys)
      ensures forall p :: p in neutron ==> neutron[p] == if old(place)[p] == Available(k, g) then [] else old(neutron)[p]
      ensures SameElsewhere(available, old(available), k)
      ensures old(available[k].Keys) - {g} <= available[k].Keys <= old(available[k].Keys) - {g} + {Some([])}
      ensures lastUpdate == old(lastUpdate)[k := map[Some([]) := 0]]
    {
      hide ListsMatch, RecyclableMatch, VifsMatch, GroupsMatch, SameElsewhere, Consistent, AppendAll, GroupMoved, Cleared;
      GroupMoves(available, recyclable, existing, neutron, place, k, g);
      var ports := available[k][g];
      available := available[k := available[k] - {g}];
      RegroupPorts(k, ports);
      place := GroupMoved(place, k, g);
      lastUpdate := lastUpdate[k := map[Some([]) := 0]];
    }

    // Clears the groups of the ports and puts them on the list without groups.
    method RegroupPorts(k: PoolKey, ports: seq<PortId>)
      modifies this`available, this`neutron
      ensures available == AppendAll(old(available), k, Some([]), ports)
      ensures neutron == Cleared(old(neutron), ports)
    {
      hide Append, AppendAll, Cleared;
      NothingAppended(available, neutron, k, Some([]));
      for n := 0 to |ports|
        invariant available == AppendAll(old(available), k, Some([]), ports[..n])
        invariant neutron == Cleared(old(neutron), ports[..n])
      {
        AppendedNext(old(available), old(neutron), k, Some([]), ports, n);
        neutron := neutron[ports[n] := []];
        available := Append(available, k, Some([]), ports[n]);
      }
      assert ports[..|ports|] == ports;
    }

    lemma NothingAppended(lists: Lists, neutron: map<PortId, seq<SgId>>, k: PoolKey, g: GroupKey)
      ensures AppendAll(lists, k, g, []) == lists && Cleared(neutron, []) == neutron
    {
    }

    lemma AppendedNext(lists: Lists, neutron: map<PortId, seq<SgId>>, k: PoolKey, g: GroupKey, ports: seq<PortId>, n: nat)
      requires n < |ports|
      ensures AppendAll(lists, k, g, ports[..n + 1]) == Append(AppendAll(lists, k, g, ports[..n]), k, g, ports[n])
      ensures Cleared(neutron, ports[..n + 1]) == Cleared(neutron, ports[..n])[ports[n] := []]
    {
      hide Append;
      assert ports[..n + 1][..n] == ports[..n];
      assert forall p :: p in ports[..n + 1] <==> p in ports[..n] || p == ports[n];
    }

    static predicate SameElsewhere(now: Lists, was: Lists, k: PoolKey) {
      now.Keys == was.Keys && forall j :: j in now && j != k ==> now[j] == was[j]
    }

    static function AppendAll(lists: Lists, k: PoolKey, g: GroupKey, ports: seq<PortId>): Lists {
      if ports == [] then lists else Append(AppendAll(lists, k, g, ports[..|ports| - 1]), k, g, ports[|ports| - 1])
    }

    static function Cleared(neutron: map<PortId, seq<SgId>>, ports: seq<PortId>): map<PortId, seq<SgId>> {
      neutron + map p | p in ports :: []
    }

    static lemma {:induction false} AppendAllMatches(lists: Lists, place: map<PortId, Place>, k: PoolKey, g: GroupKey, ports: seq<PortId>)
      requires ListsMatch(lists, place) && NoDup(ports) && place.Keys !! SetOf(ports)
      ensures ListsMatch(AppendAll(lists, k, g, ports), WithPorts(place, k, g, SetOf(ports)))
    {
      if ports == [] {
        assert SetOf(ports) == {};
        NoPortsAdded(place, k, g);
      } else {
        var init, last := ports[..|ports| - 1], ports[|ports| - 1];
        assert ports == init + [last];
        SetOfSnoc(init, last);
        assert last !in init && last in SetOf(ports);
        hide ListsMatch, WithPorts, Append, SetOf;
        AppendAllMatches(lists, place, k, g, init);
        WithPortsNext(place, k, g, SetOf(init), last);
        AppendMatches(AppendAll(lists, k, g, init), WithPorts(place, k, g, SetOf(init)), k, g, last);
      }
    }

    static lemma {:induction false} AppendAllKeys(lists: Lists, k: PoolKey, g: GroupKey, ports: seq<PortId>)
      requires k in lists
      ensures var lists' := AppendAll(lists, k, g, ports);
              SameElsewhere(lists', lists, k) && lists[k].Keys <= lists'[k].Keys <= lists[k].Keys + {g}
    {
      if ports != [] { AppendAllKeys(lists, k, g, ports[..|ports| - 1]); }
    }

    lemma GroupMoves(lists: Lists, recyclable: map<PortId, PoolKey>, existing: map<PortId, Vif>, neutron: map<PortId, seq<SgId>>,
                     place: map<PortId, Place>, k: PoolKey, g: GroupKey)
      requires Consistent(lists, recyclable, existing, neutron, place) && k in lists && g in lists[k]
      ensures var ports := lists[k][g];
              var lists' := AppendAll(lists[k := lists[k] - {g}], k, Some([]), ports);
              && Consistent(lists', recyclable, existing, Cleared(neutron, ports), GroupMoved(place, k, g))
              && neutron.Keys == place.Keys && Cleared(neutron, ports).Keys == neutron.Keys
              && (forall p :: p in neutron ==> Cleared(neutron, ports)[p] == if place[p] == Available(k, g) then [] else neutron[p])
              && SameElsewhere(lists', lists, k)
              && lists[k].Keys - {g} <= lists'[k].Keys <= lists[k].Keys - {g} + {Some([])}
    {
      var ports := lists[k][g];
      var dropped := lists[k := lists[k] - {g}];
      DeleteGroupMatches(lists, place, k, g);
      MovedPorts(lists, recyclable, existing, neutron, place, k, g);
      AppendAllMatches(dropped, place - SetOf(ports), k, Some([]), ports);
      AppendAllKeys(dropped, k, Some([]), ports);
      MovedMatches(AppendAll(dropped, k, Some([]), ports), recyclable, existing, neutron, place, k, g, ports);
    }

    static ghost function GroupMoved(place: map<PortId, Place>, k: PoolKey, g: GroupKey): map<PortId, Place> {
      map p | p in place :: if place[p] == Available(k, g) then Available(k, Some([])) else place[p]
    }

    lemma MovedPorts(lists: Lists, recyclable: map<PortId, PoolKey>, existing: map<PortId, Vif>, neutron: map<PortId, seq<SgId>>,
                     place: map<PortId, Place>, k: PoolKey, g: GroupKey)
      requires Consistent(lists, recyclable, existing, neutron, place) && k in lists && g in lists[k]
      ensures NoDup(lists[k][g]) && (place - SetOf(lists[k][g])).Keys !! SetOf(lists[k][g])
      ensures neutron.Keys == place.Keys && forall p :: p in lists[k][g] <==> p in place && place[p] == Available(k, g)
      ensures WithPorts(place - SetOf(lists[k][g]), k, Some([]), SetOf(lists[k][g])) == GroupMoved(place, k, g)
    {
      forall p ensures p in lists[k][g] <==> p in place && place[p] == Available(k, g) {
        assert Listed(lists, k, g, p) <==> p in lists[k][g];
      }
    }

    lemma MovedMatches(lists: Lists, recyclable: map<PortId, PoolKey>, existing: map<PortId, Vif>, neutron: map<PortId, seq<SgId>>,
                       place: map<PortId, Place>, k: PoolKey, g: GroupKey, ports: seq<PortId>)
      requires RecyclableMatch(recyclable, place) && VifsMatch(existing, place) && GroupsMatch(neutron, place)
      requires ListsMatch(lists, GroupMoved(place, k, g))
      requires forall p :: p in ports ==> p in place && place[p] == Available(k, g)
      ensures Consistent(lists, recyclable, existing, Cleared(neutron, ports), GroupMoved(place, k, g))
    {
    }

    lemma MovedIsPartly(place: map<PortId, Place>, k: PoolKey, g: GroupKey, sg: SgId)
      requires Names(g, sg)
      ensures PartlyUngrouped(place, GroupMoved(place, k, g), sg, k.net)
    {
    }

    lemma PartlyAtFirst(place: map<PortId, Place>, neutron: map<PortId, seq<SgId>>, sg: SgId, net: string)
      requires GroupsMatch(neutron, place)
      ensures PartlyUngrouped(place, place, sg, net) && GroupsTaken(place, place, neutron, neutron)
    {
    }

    lemma MovedTakesGroups(place: map<PortId, Place>, k: PoolKey, g: GroupKey, was: map<PortId, seq<SgId>>, now: map<PortId, seq<SgId>>)
      requires g != Some([]) && was.Keys == place.Keys && now.Keys == was.Keys
      requires forall p :: p in now ==> now[p] == if place[p] == Available(k, g) then [] else was[p]
      ensures GroupsTaken(place, GroupMoved(place, k, g), was, now)
    {
    }

    // Moves the ports of every list of a pool that names the group. A list
    // recycled without known groups stops the pass with an error.
    method UngroupPool(k: PoolKey, sg: SgId) returns (ok: bool)
      requires Valid() && k in available
      modifies this`available, this`neutron, this`place, this`lastUpdate
      ensures Valid() && PartlyUngrouped(old(place), place, sg, k.net) && GroupsTaken(old(place), place, old(neutron), neutron)
      ensures ok <==> None !in old(available[k])
      ensures SameElsewhere(available, old(available), k)
      ensures ok ==> forall g :: g in available[k] ==> !Names(g, sg)
      ensures ok ==> lastUpdate == UpdatesAfter(old(lastUpdate), k, old(available[k].Keys), sg)
    {
      hide Consistent, GroupsMatch, PartlyUngrouped, GroupsTaken, GroupMoved, UpdatesAfter, Names, GroupsSoFar;
      SameKeys(available, recyclable, existing, neutron, place);
      PartlyAtFirst(place, neutron, sg, k.net);
      ok := true;
      ghost var was := available[k].Keys;
      var todo := available[k].Keys;
      NothingUpdated(available, lastUpdate, k, sg);
      while todo != {}
        invariant Valid() && PartlyUngrouped(old(place), place, sg, k.net) && GroupsTaken(old(place), place, old(neutron), neutron)
        invariant k in available && todo <= available[k].Keys
        invariant GroupsSoFar(available, old(available), lastUpdate, old(lastUpdate), k, todo, sg)
        decreases |todo|
      {
        var g :| g in todo;
        if g.None? {
          NoneLeft(available, old(available), lastUpdate, old(lastUpdate), k, todo, sg);
          return false;
        }
        ghost var lists, updates := available, lastUpdate;
        if Names(g, sg) {
          ghost var before, groups := place, neutron;
          MovedIsPartly(place, k, g, sg);
          NamesSome(g, sg);
          SameKeys(available, recyclable, existing, neutron, place);
          MoveGroup(k, g);
          MovedTakesGroups(before, k, g, groups, neutron);
          GroupsTakenThen(old(place), before, place, sg, k.net, old(neutron), groups, neutron);
          PartlyThen(old(place), before, place, sg, k.net);
        }
        GroupDone(available, lists, old(available), lastUpdate, updates, old(lastUpdate), k, todo, g, sg);
        todo := todo - {g};
      }
      GroupsDone(available, old(available), lastUpdate, old(lastUpdate), k, sg);
    }

    lemma SameKeys(lists: Lists, recyclable: map<PortId, PoolKey>, existing: map<PortId, Vif>, neutron: map<PortId, seq<SgId>>,
                   place: map<PortId, Place>)
      requires Consistent(lists, recyclable, existing, neutron, place)
      ensures neutron.Keys == place.Keys && GroupsMatch(neutron, place)
    {
    }

    lemma NamesSome(g: GroupKey, sg: SgId)
      requires Names(g, sg)
      ensures g != Some([])
    {
    }

    // The groups outside `todo` are done; `todo` still holds the one recycled
    // without known groups, if there is one.
    static ghost predicate GroupsSoFar(lists: Lists, was: Lists, updates: map<PoolKey, map<GroupKey, int>>,
                                       updatesWere: map<PoolKey, map<GroupKey, int>>, k: PoolKey, todo: set<GroupKey>, sg: SgId) {
      && k in was && SameElsewhere(lists, was, k)
      && todo <= lists[k].Keys && todo <= was[k].Keys && (None in was[k] ==> None in todo)
      && (forall g :: g in lists[k].Keys - todo ==> !Names(g, sg))
      && updates == UpdatesAfter(updatesWere, k, was[k].Keys - todo, sg)
    }

    lemma NothingUpdated(lists: Lists, updates: map<PoolKey, map<GroupKey, int>>, k: PoolKey, sg: SgId)
      requires k in lists
      ensures GroupsSoFar(lists, lists, updates, updates, k, lists[k].Keys, sg)
    {
      assert lists[k].Keys - lists[k].Keys == {};
    }

    lemma NoneLeft(lists: Lists, was: Lists, updates: map<PoolKey, map<GroupKey, int>>,
                   updatesWere: map<PoolKey, map<GroupKey, int>>, k: PoolKey, todo: set<GroupKey>, sg: SgId)
      requires GroupsSoFar(lists, was, updates, updatesWere, k, todo, sg) && None in todo
      ensures SameElsewhere(lists, was, k) && k in was && None in was[k]
    {
    }

    lemma GroupsDone(lists: Lists, was: Lists, updates: map<PoolKey, map<GroupKey, int>>,
                     updatesWere: map<PoolKey, map<GroupKey, int>>, k: PoolKey, sg: SgId)
      requires GroupsSoFar(lists, was, updates, updatesWere, k, {}, sg)
      ensures SameElsewhere(lists, was, k) && k in was && None !in was[k] && (forall g :: g in lists[k] ==> !Names(g, sg))
      ensures updates == UpdatesAfter(updatesWere, k, was[k].Keys, sg)
    {
      assert was[k].Keys - {} == was[k].Keys;
    }

    lemma GroupDone(lists: Lists, before: Lists, was: Lists, updates: map<PoolKey, map<GroupKey, int>>,
                    updatesBefore: map<PoolKey, map<GroupKey, int>>, updatesWere: map<PoolKey, map<GroupKey, int>>,
                    k: PoolKey, todo: set<GroupKey>, g: GroupKey, sg: SgId)
      requires GroupsSoFar(before, was, updatesBefore, updatesWere, k, todo, sg) && g in todo && g.Some?
      requires if Names(g, sg)
               then SameElsewhere(lists, before, k) && updates == updatesBefore[k := map[Some([]) := 0]]
                    && before[k].Keys - {g} <= lists[k].Keys <= before[k].Keys - {g} + {Some([])}
               else lists == before && updates == updatesBefore
      ensures k in lists && todo - {g} <= lists[k].Keys
      ensures GroupsSoFar(lists, was, updates, updatesWere, k, todo - {g}, sg)
    {
      UpdatesNext(updatesWere, k, was[k].Keys - todo, g, sg);
      assert was[k].Keys - (todo - {g}) == (was[k].Keys - todo) + {g};
      hide UpdatesAfter;
      forall h | h in lists[k].Keys - (todo - {g}) ensures !Names(h, sg) {
        if h != g && h != Some([]) { assert h in before[k].Keys - todo; }
      }
    }

    // A pool that lost a group counts as the one updated longest ago, with
    // only the list without groups recorded.
    static ghost function UpdatesAfter(updates: map<PoolKey, map<GroupKey, int>>, k: PoolKey, groups: set<GroupKey>, sg: SgId)
        : map<PoolKey, map<GroupKey, int>> {
      if exists g :: g in groups && Names(g, sg) then updates[k := map[Some([]) := 0]] else updates
    }

    lemma UpdatesNext(updates: map<PoolKey, map<GroupKey, int>>, k: PoolKey, groups: set<GroupKey>, g: GroupKey, sg: SgId)
      ensures UpdatesAfter(updates, k, groups + {g}, sg)
           == if Names(g, sg) then UpdatesAfter(updates, k, groups, sg)[k := map[Some([]) := 0]] else UpdatesAfter(updates, k, groups, sg)
    {
      if Names(g, sg) {
        assert g in groups + {g};
      } else if h :| h in groups && Names(h, sg) {
        assert h in groups + {g};
      }
    }

    // Takes a removed security group off every port in the pools of a network.
    // When it fails, some of them are off it already.
    method RemoveSgFromPools(sg: SgId, net: string) returns (ok: bool)
      requires Valid()
      modifies this`available, this`neutron, this`place, this`lastUpdate
      ensures Valid()
      ensures ok <==> forall k :: k in old(available) && k.net == net ==> None !in old(available[k])
      ensures Next(cfg, old(place), if ok then RemoveSg(sg, net) else RemoveSgPartly(sg, net), place)
      ensures GroupsTaken(old(place), place, old(neutron), neutron)
      ensures ok ==> forall k, g :: k in available && k.net == net && g in available[k] ==> !Names(g, sg)
      ensures ok ==> forall k :: Updated(lastUpdate, old(lastUpdate), k, old(available), sg, net)
    {
      hide Consistent, GroupsMatch, Ungrouped, PartlyUngrouped, GroupsTaken, Updated, UngroupedSoFar;
      SameKeys(available, recyclable, existing, neutron, place);
      PartlyAtFirst(place, neutron, sg, net);
      ok := true;
      var todo := available.Keys;
      NothingUngrouped(available, lastUpdate, sg, net);
      while todo != {}
        invariant ok && Valid() && PartlyUngrouped(old(place), place, sg, net) && GroupsTaken(old(place), place, old(neutron), neutron)
        invariant todo <= available.Keys
        invariant UngroupedSoFar(available, old(available), lastUpdate, old(lastUpdate), todo, sg, net)
        decreases |todo|
      {
        var k :| k in todo;
        if k.net == net {
          ghost var was, updates, before, groups := available, lastUpdate, place, neutron;
          ok := UngroupPool(k, sg);
          GroupsTakenThen(old(place), before, place, sg, net, old(neutron), groups, neutron);
          PartlyThen(old(place), before, place, sg, net);
          PoolUngrouped(available, was, old(available), lastUpdate, updates, old(lastUpdate), todo, k, sg, ok);
          if !ok { return; }
        } else {
          OtherNet(available, old(available), lastUpdate, old(lastUpdate), todo, k, sg, net);
        }
        todo := todo - {k};
      }
      AllUngrouped(available, old(available), lastUpdate, old(lastUpdate), sg, net);
      NoneToMove(available, recyclable, existing, neutron, place, sg, net);
      PartlyKeepsPools(old(place), place, sg, net);
    }

    // The pools of the network outside `todo` are done, the others as before.
    static ghost predicate UngroupedSoFar(lists: Lists, was: Lists, updates: map<PoolKey, map<GroupKey, int>>,
                                          updatesWere: map<PoolKey, map<GroupKey, int>>, todo: set<PoolKey>, sg: SgId, net: string) {
      && lists.Keys == was.Keys && todo <= lists.Keys
      && (forall k :: k in todo ==> lists[k] == was[k])
      && (forall k :: k in lists.Keys - todo && k.net == net ==> None !in was[k] && forall g :: g in lists[k] ==> !Names(g, sg))
      && (forall k :: if k in todo then SameUpdate(updates, updatesWere, k) else Updated(updates, updatesWere, k, was, sg, net))
    }

    lemma NothingUngrouped(lists: Lists, updates: map<PoolKey, map<GroupKey, int>>, sg: SgId, net: string)
      ensures UngroupedSoFar(lists, lists, updates, updates, lists.Keys, sg, net)
    {
    }

    lemma AllUngrouped(lists: Lists, was: Lists, updates: map<PoolKey, map<GroupKey, int>>,
                       updatesWere: map<PoolKey, map<GroupKey, int>>, sg: SgId, net: string)
      requires UngroupedSoFar(lists, was, updates, updatesWere, {}, sg, net)
      ensures forall k :: k in was && k.net == net ==> None !in was[k]
      ensures forall k, g :: k in lists && k.net == net && g in lists[k] ==> !Names(g, sg)
      ensures forall k :: Updated(updates, updatesWere, k, was, sg, net)
    {
      hide Updated;
      forall k ensures Updated(updates, updatesWere, k, was, sg, net) { assert k !in {}; }
    }

    lemma OtherNet(lists: Lists, was: Lists, updates: map<PoolKey, map<GroupKey, int>>,
                   updatesWere: map<PoolKey, map<GroupKey, int>>, todo: set<PoolKey>, k: PoolKey, sg: SgId, net: string)
      requires UngroupedSoFar(lists, was, updates, updatesWere, todo, sg, net) && k in todo && k.net != net
      ensures UngroupedSoFar(lists, was, updates, updatesWere, todo - {k}, sg, net)
    {
      assert SameUpdate(updates, updatesWere, k);
    }

    lemma PoolUngrouped(lists: Lists, before: Lists, was: Lists, updates: map<PoolKey, map<GroupKey, int>>,
                        updatesBefore: map<PoolKey, map<GroupKey, int>>, updatesWere: map<PoolKey, map<GroupKey, int>>,
                        todo: set<PoolKey>, k: PoolKey, sg: SgId, ok: bool)
      requires UngroupedSoFar(before, was, updatesBefore, updatesWere, todo, sg, k.net) && k in todo
      requires SameElsewhere(lists, before, k) && (ok <==> None !in before[k])
      requires ok ==> forall g :: g in lists[k] ==> !Names(g, sg)
      requires ok ==> updates == UpdatesAfter(updatesBefore, k, before[k].Keys, sg)
      ensures ok ==> UngroupedSoFar(lists, was, updates, updatesWere, todo - {k}, sg, k.net)
      ensures !ok ==> k in was && None in was[k]
    {
      if ok {
        assert SameUpdate(updatesBefore, updatesWere, k);
        forall j | j != k ensures SameUpdate(updates, updatesBefore, j) {}
        forall j ensures if j in todo - {k} then SameUpdate(updates, updatesWere, j) else Updated(updates, updatesWere, j, was, sg, k.net) {
          if j != k { assert if j in todo then SameUpdate(updatesBefore, updatesWere, j) else Updated(updatesBefore, updatesWere, j, was, sg, k.net); }
        }
      }
    }

    static predicate SameUpdate(now: map<PoolKey, map<GroupKey, int>>, was: map<PoolKey, map<GroupKey, int>>, k: PoolKey) {
      if k in was then k in now && now[k] == was[k] else k !in now
    }

    // How removing the group left the recorded update of a pool.
    static ghost predicate Updated(now: map<PoolKey, map<GroupKey, int>>, was: map<PoolKey, map<GroupKey, int>>, k: PoolKey,
                                   lists: Lists, sg: SgId, net: string) {
      if k in lists && k.net == net && exists g :: g in lists[k] && Names(g, sg)
      then k in now && now[k] == map[Some([]) := 0] else SameUpdate(now, was, k)
    }

    lemma NoneToMove(lists: Lists, recyclable: map<PortId, PoolKey>, existing: map<PortId, Vif>, neutron: map<PortId, seq<SgId>>,
                     place: map<PortId, Place>, sg: SgId, net: string)
      requires Consistent(lists, recyclable, existing, neutron, place)
      requires forall k, g :: k in lists && k.net == net && g in lists[k] ==> !Names(g, sg)
      ensures Ungrouped(place, sg, net) == place
    {
      forall p | p in place ensures !Moves(place[p], sg, net) {
        if place[p].Available? {
          assert Listed(lists, place[p].key, place[p].group, p);
          assert place[p].key.net == net ==> !Names(place[p].group, sg);
        }
      }
    }

    // ---------- start-up ----------

    // The ports found in Neutron at start-up, once the leftovers are gone:
    // those outside the pools stay in use, those bound to a host go back to
    // their pool, and the others are deleted.
    static ghost function Recovered(neutron: map<PortId, seq<SgId>>, outside: set<PortId>, bound: map<PortId, PoolKey>): map<PortId, Place> {
      map p | p in neutron && (p in outside || p in bound) :: if p in outside then InUse else Available(bound[p], Some(neutron[p]))
    }

    // Rebuilds the pools from Neutron.
    method SyncPools(leftover: set<PortId>, outside: set<PortId>, bound: map<PortId, PoolKey>)
      requires forall p :: p in neutron ==> p < next
      modifies this
      ensures Valid() && recovered && recyclable == map[] && lastUpdate == map[]
      ensures place == Recovered(old(neutron) - leftover, outside, bound) && GroupsKept(neutron, old(neutron))
    {
      hide Consistent, Recovered;
      available, existing, recyclable, lastUpdate, place := map[], map[], map[], map[], map[];
      neutron := neutron - leftover;
      RecoverPorts(outside, bound);
      recovered := true;
    }

    method RecoverPorts(outside: set<PortId>, bound: map<PortId, PoolKey>)
      requires available == map[] && existing == map[] && place == map[]
      modifies this`available, this`existing, this`neutron, this`place
      ensures GroupsKept(neutron, old(neutron))
      ensures Consistent(available, map[], existing, neutron, place) && place == Recovered(old(neutron), outside, bound)
    {
      ghost var found := neutron;
      var todo := neutron.Keys;
      RecoveryStarts(found, outside, bound);
      hide Consistent, Recovered, RecoveredSoFar;
      while todo != {}
        invariant GroupsKept(neutron, found)
        invariant RecoveredSoFar(available, existing, neutron, place, found, todo, outside, bound)
        decreases |todo|
      {
        var p :| p in todo;
        RecoverPort(p, found, todo, outside, bound);
        todo := todo - {p};
      }
      RecoveryEnds(available, existing, neutron, place, found, outside, bound);
    }

    static ghost predicate RecoveredSoFar(lists: Lists, existing: map<PortId, Vif>, neutron: map<PortId, seq<SgId>>,
                                          place: map<PortId, Place>, found: map<PortId, seq<SgId>>, todo: set<PortId>,
                                          outside: set<PortId>, bound: map<PortId, PoolKey>) {
      && (forall p :: p in todo ==> p in neutron && p in found && neutron[p] == found[p])
      && place == Recovered(found - todo, outside, bound)
      && Consistent(lists, map[], existing, neutron - todo, place)
    }

    method RecoverPort(p: PortId, ghost found: map<PortId, seq<SgId>>, ghost todo: set<PortId>,
                       outside: set<PortId>, bound: map<PortId, PoolKey>)
      requires p in todo && RecoveredSoFar(available, existing, neutron, place, found, todo, outside, bound)
      modifies this`available, this`existing, this`neutron, this`place
      ensures RecoveredSoFar(available, existing, neutron, place, found, todo - {p}, outside, bound)
      ensures neutron == old(neutron) || neutron == old(neutron) - {p}
    {
      if p in outside {
        LeftOutside(available, existing, neutron, place, found, todo, outside, bound, p);
      } else if p in bound {
        BackInPool(available, existing, neutron, place, found, todo, outside, bound, p);
        hide RecoveredSoFar, Append, Recovered;
        existing := existing[p := Vif(p)];
        available := Append(available, bound[p], Some(neutron[p]), p);
      } else {
        NotRecovered(available, existing, neutron, place, found, todo, outside, bound, p);
        hide RecoveredSoFar, Recovered;
        neutron := neutron - {p};
      }
      hide RecoveredSoFar, Recovered;
      place := Recovered(found - (todo - {p}), outside, bound);
    }

    lemma RecoveryStarts(found: map<PortId, seq<SgId>>, outside: set<PortId>, bound: map<PortId, PoolKey>)
      ensures Recovered(found - found.Keys, outside, bound) == map[]
      ensures RecoveredSoFar(map[], map[], found, map[], found, found.Keys, outside, bound)
    {
    }

    lemma RecoveryEnds(lists: Lists, existing: map<PortId, Vif>, neutron: map<PortId, seq<SgId>>, place: map<PortId, Place>,
                       found: map<PortId, seq<SgId>>, outside: set<PortId>, bound: map<PortId, PoolKey>)
      requires RecoveredSoFar(lists, existing, neutron, place, found, {}, outside, bound)
      ensures Consistent(lists, map[], existing, neutron, place) && place == Recovered(found, outside, bound)
    {
      assert neutron - {} == neutron && found - {} == found;
    }

    lemma LeftOutside(lists: Lists, existing: map<PortId, Vif>, neutron: map<PortId, seq<SgId>>, place: map<PortId, Place>,
                      found: map<PortId, seq<SgId>>, todo: set<PortId>, outside: set<PortId>, bound: map<PortId, PoolKey>, p: PortId)
      requires p in todo && RecoveredSoFar(lists, existing, neutron, place, found, todo, outside, bound)
      requires p in outside
      ensures var place' := Recovered(found - (todo - {p}), outside, bound);
              RecoveredSoFar(lists, existing, neutron, place', found, todo - {p}, outside, bound)
    {
      var place' := Recovered(found - (todo - {p}), outside, bound);
      hide ListsMatch;
      assert place' == place[p := InUse];
      NewInUse(lists, place, p);
    }

    lemma NewInUse(lists: Lists, place: map<PortId, Place>, p: PortId)
      requires ListsMatch(lists, place) && p !in place
      ensures ListsMatch(lists, place[p := InUse])
    {
    }

    lemma BackInPool(lists: Lists, existing: map<PortId, Vif>, neutron: map<PortId, seq<SgId>>, place: map<PortId, Place>,
                      found: map<PortId, seq<SgId>>, todo: set<PortId>, outside: set<PortId>, bound: map<PortId, PoolKey>, p: PortId)
      requires p in todo && RecoveredSoFar(lists, existing, neutron, place, found, todo, outside, bound)
      requires p !in outside && p in bound
      ensures var place' := Recovered(found - (todo - {p}), outside, bound);
              RecoveredSoFar(Append(lists, bound[p], Some(neutron[p]), p), existing[p := Vif(p)], neutron, place', found, todo - {p}, outside, bound)
    {
      var place' := Recovered(found - (todo - {p}), outside, bound);
      hide ListsMatch, Append;
      assert place' == place[p := Available(bound[p], Some(neutron[p]))];
      AppendMatches(lists, place, bound[p], Some(neutron[p]), p);
    }

    lemma NotRecovered(lists: Lists, existing: map<PortId, Vif>, neutron: map<PortId, seq<SgId>>, place: map<PortId, Place>,
                      found: map<PortId, seq<SgId>>, todo: set<PortId>, outside: set<PortId>, bound: map<PortId, PoolKey>, p: PortId)
      requires p in todo && RecoveredSoFar(lists, existing, neutron, place, found, todo, outside, bound)
      requires p !in outside && p !in bound
      ensures var place' := Recovered(found - (todo - {p}), outside, bound);
              RecoveredSoFar(lists, existing, neutron - {p}, place', found, todo - {p}, outside, bound)
    {
      var place' := Recovered(found - (todo - {p}), outside, bound);
      assert place' == place;
      assert neutron - {p} - (todo - {p}) == neutron - todo;
    }
  }
}
