/**
 Creating subports of a node's trunk in bulk: one VLAN id for each port, the
 ports in one request, and all of them attached to the trunk in another.
 */
module VlanSubports {
  import opened Options

  type PortId = nat
  type VlanId = nat

  datatype Subport = Subport(vlan: VlanId, port: Option<PortId>)
  datatype Vif = Vif(port: PortId, vlan: VlanId)

  datatype Result = Vifs(vifs: seq<Vif>) | CreateError

  function VlansOf(subports: map<PortId, VlanId>): set<VlanId> { set p | p in subports :: subports[p] }

  function ChosenVlans(infos: seq<Subport>): set<VlanId> { set i | 0 <= i < |infos| :: infos[i].vlan }

  predicate DistinctVlans(infos: seq<Subport>) {
    forall i, j :: 0 <= i < j < |infos| ==> infos[i].vlan != infos[j].vlan
  }

  // What the subports add to the trunk.
  function Attached(vifs: seq<Vif>): map<PortId, VlanId> {
    if vifs == [] then map[] else Attached(vifs[..|vifs| - 1])[vifs[|vifs| - 1].port := vifs[|vifs| - 1].vlan]
  }

  // The ports are new, each once.
  ghost predicate NewPorts(vifs: seq<Vif>, known: set<PortId>) {
    && (forall i :: 0 <= i < |vifs| ==> vifs[i].port !in known)
    && (forall i, j :: 0 <= i < j < |vifs| ==> vifs[i].port != vifs[j].port)
  }

  // Every returned vif carries the VLAN that its port has on the trunk.
  lemma {:induction false} AttachedHas(vifs: seq<Vif>, known: set<PortId>, i: nat)
    requires NewPorts(vifs, known) && i < |vifs|
    ensures vifs[i].port in Attached(vifs) && Attached(vifs)[vifs[i].port] == vifs[i].vlan
  {
    if i < |vifs| - 1 {
      AttachedHas(vifs[..|vifs| - 1], known, i);
    }
  }

  lemma {:induction false} AttachedKeys(vifs: seq<Vif>)
    ensures forall p :: p in Attached(vifs) ==> exists i :: 0 <= i < |vifs| && vifs[i].port == p
  {
    if vifs != [] {
      var init := vifs[..|vifs| - 1];
      AttachedKeys(init);
      forall p | p in Attached(vifs) ensures exists i :: 0 <= i < |vifs| && vifs[i].port == p {
        if p in Attached(init) {
          var i :| 0 <= i < |init| && init[i].port == p;
          assert vifs[i].port == p;
        }
      }
    }
  }

  // The segmentation driver: an id outside the given ones, unless none is left.
  method AllocateSegmentationId(usable: set<VlanId>, inUse: set<VlanId>) returns (id: Option<VlanId>)
    ensures id.None? <==> usable <= inUse
    ensures id.Some? ==> id.value in usable && id.value !in inUse
  {
    if v :| v in usable && v !in inUse { return Some(v); }
    return None;
  }

  function Least(a: nat, b: nat): nat { if a <= b then a else b }

  class NestedVlanDriver {
    // The VLAN ids that the segmentation driver gives out.
    const usable: set<VlanId>
    // Neutron: the node's trunk, and this controller's ports.
    var trunk: map<PortId, VlanId>
    var ports: set<PortId>
    var next: PortId

    ghost predicate Valid()
      reads this
    {
      (forall p :: p in trunk ==> p < next) && forall p :: p in ports ==> p < next
    }

    constructor (usable: set<VlanId>)
      ensures Valid() && this.usable == usable && trunk == map[] && ports == {}
    {
      this.usable := usable;
      trunk, ports, next := map[], {}, 0;
    }

    method GetInUseVlanIds() returns (ids: set<VlanId>)
      ensures ids == VlansOf(trunk)
    {
      ids := {};
      var todo := trunk.Keys;
      while todo != {}
        invariant todo <= trunk.Keys && ids == set p | p in trunk.Keys - todo :: trunk[p]
        decreases |todo|
      {
        var p :| p in todo;
        assert trunk.Keys - (todo - {p}) == (trunk.Keys - todo) + {p};
        ids, todo := ids + {trunk[p]}, todo - {p};
      }
    }

    // As many unused VLAN ids as asked for, or all that are left.
    method CreateSubportsInfo(num: nat) returns (infos: seq<Subport>)
      ensures |infos| == Least(num, |usable - VlansOf(trunk)|)
      ensures DistinctVlans(infos) && ChosenVlans(infos) <= usable && ChosenVlans(infos) !! VlansOf(trunk)
      ensures UnusedAndDistinct(infos, usable, trunk) && |infos| <= num
      ensures |infos| < num ==> NoneLeft(infos, usable, trunk)
    {
      hide DistinctVlans, ChosenVlans, VlansOf, Picked, UnusedAndDistinct, NoneLeft;
      infos := [];
      var inUse := GetInUseVlanIds();
      ghost var free := usable - inUse;
      NoneChosen(free);
      var short := false;
      while |infos| < num && !short
        invariant |infos| <= num && Picked(free, infos) && (short ==> |infos| == |free|)
        invariant inUse == VlansOf(trunk) + ChosenVlans(infos) && (short ==> usable <= inUse)
        decreases num - |infos|, !short
      {
        var id := AllocateSegmentationId(usable, inUse);
        if id.None? {
          AllPicked(free, infos);
          short := true;
        } else {
          PickOne(free, infos, id.value);
          inUse := inUse + {id.value};
          infos := infos + [Subport(id.value, None)];
        }
      }
      PickedBounds(free, infos);
      ChosenAreUnused(infos, usable, trunk);
      if short { AllTaken(infos, usable, trunk); }
    }

    // Every id is usable, on no subport of the trunk, and chosen once.
    static ghost predicate UnusedAndDistinct(infos: seq<Subport>, usable: set<VlanId>, trunk: map<PortId, VlanId>) {
      && (forall i :: 0 <= i < |infos| ==> infos[i].vlan in usable)
      && (forall i, p :: 0 <= i < |infos| && p in trunk ==> infos[i].vlan != trunk[p])
      && (forall i, j :: 0 <= i < j < |infos| ==> infos[i].vlan != infos[j].vlan)
    }

    // Every usable id is on a subport of the trunk or chosen.
    static ghost predicate NoneLeft(infos: seq<Subport>, usable: set<VlanId>, trunk: map<PortId, VlanId>) {
      forall v :: v in usable ==> (exists p :: p in trunk && trunk[p] == v) || exists i :: 0 <= i < |infos| && infos[i].vlan == v
    }

    lemma ChosenAreUnused(infos: seq<Subport>, usable: set<VlanId>, trunk: map<PortId, VlanId>)
      requires DistinctVlans(infos) && ChosenVlans(infos) <= usable && ChosenVlans(infos) !! VlansOf(trunk)
      ensures UnusedAndDistinct(infos, usable, trunk)
    {
      forall i | 0 <= i < |infos| ensures infos[i].vlan in usable && forall p :: p in trunk ==> infos[i].vlan != trunk[p] {
        assert infos[i].vlan in ChosenVlans(infos);
        forall p | p in trunk ensures infos[i].vlan != trunk[p] { assert trunk[p] in VlansOf(trunk); }
      }
    }

    lemma AllTaken(infos: seq<Subport>, usable: set<VlanId>, trunk: map<PortId, VlanId>)
      requires usable <= VlansOf(trunk) + ChosenVlans(infos)
      ensures NoneLeft(infos, usable, trunk)
    {
    }

    // Some of the free ids are chosen, each for one subport.
    static ghost predicate Picked(free: set<VlanId>, infos: seq<Subport>) {
      DistinctVlans(infos) && ChosenVlans(infos) <= free && |free - ChosenVlans(infos)| == |free| - |infos|
    }

    lemma NoneChosen(free: set<VlanId>)
      ensures Picked(free, []) && ChosenVlans([]) == {}
    {
      assert free - ChosenVlans([]) == free;
    }

    lemma AllPicked(free: set<VlanId>, infos: seq<Subport>)
      requires Picked(free, infos) && free <= ChosenVlans(infos)
      ensures |infos| == |free|
    {
      hide ChosenVlans, DistinctVlans;
      assert free - ChosenVlans(infos) == {};
    }

    lemma PickOne(free: set<VlanId>, infos: seq<Subport>, v: VlanId)
      requires Picked(free, infos) && v in free && v !in ChosenVlans(infos)
      ensures Picked(free, infos + [Subport(v, None)])
      ensures ChosenVlans(infos + [Subport(v, None)]) == ChosenVlans(infos) + {v}
    {
      ChosenSnoc(infos, v);
      hide ChosenVlans, DistinctVlans;
      assert free - (ChosenVlans(infos) + {v}) == free - ChosenVlans(infos) - {v};
    }

    lemma PickedBounds(free: set<VlanId>, infos: seq<Subport>)
      requires Picked(free, infos)
      ensures |infos| <= |free| && DistinctVlans(infos) && ChosenVlans(infos) <= free
    {
    }

    lemma ChosenSnoc(infos: seq<Subport>, v: VlanId)
      requires v !in ChosenVlans(infos) && DistinctVlans(infos)
      ensures ChosenVlans(infos + [Subport(v, None)]) == ChosenVlans(infos) + {v}
      ensures DistinctVlans(infos + [Subport(v, None)])
    {
      var more := infos + [Subport(v, None)];
      forall i | 0 <= i < |infos| ensures infos[i].vlan in ChosenVlans(infos) && more[i] == infos[i] {}
      forall w ensures w in ChosenVlans(more) <==> w in ChosenVlans(infos) || w == v {
        if w in ChosenVlans(infos) {
          var i :| 0 <= i < |infos| && infos[i].vlan == w;
          assert more[i].vlan == w;
        }
        if w == v { assert more[|infos|].vlan == w; }
      }
    }

    // One request creates all the ports.
    method CreatePorts(num: nat) returns (created: seq<PortId>)
      requires Valid()
      modifies this`ports, this`next
      ensures Valid() && |created| == num && next >= old(next) && ports == old(ports) + set p | p in created
      ensures forall i :: 0 <= i < |created| ==> created[i] >= old(next)
      ensures forall i, j :: 0 <= i < j < |created| ==> created[i] != created[j]
    {
      created := [];
      for i := 0 to num
        invariant Valid() && |created| == i && next == old(next) + i && ports == old(ports) + set p | p in created
        invariant forall j :: 0 <= j < i ==> created[j] == old(next) + j
      {
        ports, created, next := ports + {next}, created + [next], next + 1;
      }
    }

    method DeletePorts(created: seq<PortId>)
      requires Valid()
      modifies this`ports
      ensures Valid() && ports == old(ports) - set p | p in created
    {
      for i := 0 to |created|
        invariant Valid() && ports == old(ports) - set p | p in created[..i]
      {
        assert created[..i + 1] == created[..i] + [created[i]];
        ports := ports - {created[i]};
      }
      assert created[..|created|] == created;
    }

    // All the subports, or none: refused if one of the ids is taken by now.
    method AddTrunkSubports(vifs: seq<Vif>) returns (conflict: bool)
      modifies this`trunk
      ensures conflict <==> exists i :: 0 <= i < |vifs| && vifs[i].vlan in VlansOf(old(trunk))
      ensures trunk == if conflict then old(trunk) else old(trunk) + Attached(vifs)
    {
      for i := 0 to |vifs|
        invariant trunk == old(trunk) && forall j :: 0 <= j < i ==> vifs[j].vlan !in VlansOf(trunk)
      {
        if vifs[i].vlan in VlansOf(trunk) { return true; }
      }
      trunk := trunk + Attached(vifs);
      return false;
    }

    // Fills in the ports, in the order of the answer.
    static method FillIn(infos: seq<Subport>, created: seq<PortId>) returns (vifs: seq<Vif>)
      requires |created| == |infos|
      ensures |vifs| == |infos| && forall i :: 0 <= i < |vifs| ==> vifs[i] == Vif(created[i], infos[i].vlan)
    {
      var filled := infos;
      for i := 0 to |created|
        invariant |filled| == |infos|
        invariant forall j :: 0 <= j < |infos| ==> filled[j] == if j < i then Subport(infos[j].vlan, Some(created[j])) else infos[j]
      {
        filled := filled[i := filled[i].(port := Some(created[i]))];
      }
      vifs := [];
      for i := 0 to |filled|
        invariant |vifs| == i && forall j :: 0 <= j < i ==> vifs[j] == Vif(created[j], infos[j].vlan)
      {
        vifs := vifs + [Vif(filled[i].port.value, filled[i].vlan)];
      }
    }

    // Another controller's subports, attached in the meantime.
    method Others(others: map<PortId, VlanId>)
      requires Valid() && forall p :: p in others ==> p < next
      modifies this`trunk
      ensures Valid() && trunk == old(trunk) + others
    {
      trunk := trunk + others;
    }

    // Creates up to `num` subports, all or none. Without vifs, the ports and
    // the trunk are as before, but for what others attached.
    method RequestVifs(num: nat, others: map<PortId, VlanId>, createFails: bool, attachFails: bool)
      returns (result: Result, ghost chosen: seq<Subport>)
      requires Valid() && forall p :: p in others ==> p < next
      modifies this`trunk, this`ports, this`next
      ensures Valid()
      // The ids are unused, and fewer than asked for only if no more are left.
      ensures |chosen| == Least(num, |usable - VlansOf(old(trunk))|)
      ensures DistinctVlans(chosen) && ChosenVlans(chosen) <= usable && ChosenVlans(chosen) !! VlansOf(old(trunk))
      ensures UnusedAndDistinct(chosen, usable, old(trunk)) && |chosen| <= num && (|chosen| < num ==> NoneLeft(chosen, usable, old(trunk)))
      ensures result.CreateError? <==> chosen != [] && createFails
      ensures result.Vifs? && result.vifs != [] ==>
                && |result.vifs| == |chosen| && NewPorts(result.vifs, old(ports) + old(trunk).Keys + others.Keys)
                && (forall i :: 0 <= i < |chosen| ==> result.vifs[i].vlan == chosen[i].vlan && result.vifs[i].vlan !in VlansOf(old(trunk) + others))
                && (forall i, p :: 0 <= i < |chosen| && p in old(trunk) + others ==> result.vifs[i].vlan != (old(trunk) + others)[p])
                && trunk == old(trunk) + others + Attached(result.vifs)
                && (forall i :: 0 <= i < |result.vifs| ==> result.vifs[i].port in trunk && trunk[result.vifs[i].port] == result.vifs[i].vlan)
                && ports == old(ports) + set i | 0 <= i < |result.vifs| :: result.vifs[i].port
      ensures result.CreateError? || result.vifs == [] ==>
                ports == old(ports) && trunk == if chosen == [] || createFails then old(trunk) else old(trunk) + others
      ensures result.Vifs? && result.vifs == [] <==>
                chosen == [] || (!createFails && (attachFails || ChosenVlans(chosen) * VlansOf(old(trunk) + others) != {}))
    {
      var infos := CreateSubportsInfo(num);
      chosen := infos;
      if infos == [] { return Vifs([]), chosen; }
      if createFails { return CreateError, chosen; }
      hide VlansOf, ChosenVlans, DistinctVlans, Attached, NewPorts;
      var vifs := CreateSubports(infos, others, attachFails);
      result := Vifs(vifs);
      if vifs != [] { VlansOnTrunk(vifs, old(ports) + old(trunk).Keys + others.Keys, old(trunk) + others); }
    }

    // Creates the ports and attaches them, or deletes them again.
    method CreateSubports(infos: seq<Subport>, others: map<PortId, VlanId>, attachFails: bool) returns (vifs: seq<Vif>)
      requires Valid() && infos != [] && forall p :: p in others ==> p < next
      modifies this`trunk, this`ports, this`next
      ensures Valid()
      ensures vifs == [] <==> attachFails || ChosenVlans(infos) * VlansOf(old(trunk) + others) != {}
      ensures vifs == [] ==> ports == old(ports) && trunk == old(trunk) + others
      ensures vifs != [] ==>
                && |vifs| == |infos| && NewPorts(vifs, old(ports) + old(trunk).Keys + others.Keys)
                && (forall i :: 0 <= i < |vifs| ==> vifs[i].vlan == infos[i].vlan && vifs[i].vlan !in VlansOf(old(trunk) + others))
                && trunk == old(trunk) + others + Attached(vifs)
                && ports == old(ports) + set i | 0 <= i < |vifs| :: vifs[i].port
    {
      var created := CreatePorts(|infos|);
      vifs := FillIn(infos, created);
      Others(others);
      ghost var base := trunk;
      CreatedAre(vifs, created, old(ports) + old(trunk).Keys + others.Keys);
      hide VlansOf, ChosenVlans, NewPorts, Attached;
      var conflict := true;
      if !attachFails {
        conflict := AddTrunkSubports(vifs);
        Conflicts(infos, vifs, VlansOf(base));
      }
      if conflict {
        DeletePorts(created);
        vifs := [];
      }
    }

    lemma CreatedAre(vifs: seq<Vif>, created: seq<PortId>, known: set<PortId>)
      requires |vifs| == |created| && forall i :: 0 <= i < |vifs| ==> vifs[i].port == created[i] && created[i] !in known
      requires forall i, j :: 0 <= i < j < |created| ==> created[i] != created[j]
      ensures NewPorts(vifs, known) && Attached(vifs).Keys <= (set p | p in created)
      ensures (set p | p in created) == set i | 0 <= i < |vifs| :: vifs[i].port
    {
      AttachedKeys(vifs);
      assert forall i :: 0 <= i < |vifs| ==> created[i] in created && vifs[i].port == created[i];
    }

    lemma VlansOnTrunk(vifs: seq<Vif>, known: set<PortId>, base: map<PortId, VlanId>)
      requires NewPorts(vifs, known)
      ensures var trunk := base + Attached(vifs);
              forall i :: 0 <= i < |vifs| ==> vifs[i].port in trunk && trunk[vifs[i].port] == vifs[i].vlan
    {
      forall i | 0 <= i < |vifs| ensures vifs[i].port in Attached(vifs) && Attached(vifs)[vifs[i].port] == vifs[i].vlan {
        AttachedHas(vifs, known, i);
      }
    }

    lemma Conflicts(infos: seq<Subport>, vifs: seq<Vif>, taken: set<VlanId>)
      requires |vifs| == |infos| && forall i :: 0 <= i < |vifs| ==> vifs[i].vlan == infos[i].vlan
      ensures (exists i :: 0 <= i < |vifs| && vifs[i].vlan in taken) <==> ChosenVlans(infos) * taken != {}
    {
      if i :| 0 <= i < |vifs| && vifs[i].vlan in taken { assert infos[i].vlan in ChosenVlans(infos) * taken; }
      if v :| v in ChosenVlans(infos) * taken {
        var i :| 0 <= i < |infos| && infos[i].vlan == v;
      }
    }
  }
}
