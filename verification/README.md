# Kuryr-Kubernetes: the bookkeeping between three worlds

Kuryr keeps Kubernetes objects, Neutron and Octavia resources, and its own
records in step. This project models the parts where that is hard, and proves
what they keep:

- **Load balancers** (`LbaasModel`, `LbaasDriver`, `LbaasRecovery`,
  `LbaasOutcome`, `LbaasHandler`): the handler that turns a service spec and an
  Endpoints object into listeners, pools and members, against an Octavia that may
  stop answering after any call. A reconciliation ends in an exact state, is
  idempotent, and may be cut off and restarted at any call. When a run cannot get
  through at all is proved exactly: an Endpoints object with a subset it cannot
  read, or a load balancer to be replaced that is gone too early.
- **Port pools** (`VifPool`): the nested maps of lists in which ready-made ports
  wait, are taken, recycled, regrouped and deleted. Every port is in exactly one
  place, and no run of operations takes a pool over its limit.
- **Network policies** (`NetworkPolicy`, `RuleUpdate`, `ListenerAcl`): policy
  blocks compiled to security-group rules, the update of stored rules, and the
  access lists of listeners. What the rules admit is compared with what the
  blocks mean; where the two differ, the exact condition is proved.
- **CNI registry** (`CniRegistry`): the watcher and any number of ADD and DEL
  requests on one dictionary, as interleaved steps.
- **Event pipeline** (`AsyncQueue`, `Retry`): the per-object queues that skip to
  the newest event, and retries until a deadline.
- **Optimistic updates** (`AddressPairs`, `Annotate`) and **bulk subports**
  (`VlanSubports`): writes guarded by a revision or resource version against
  other writers, and all-or-nothing creation of VLAN subports.

Handlers, drivers and services that change fields are classes; Neutron, Octavia
and the API server are small stores, in fields of these classes or classes of
their own. Concurrent parts are state machines over their atomic steps, with
theorems about every run.

## Assumptions

- Load balancers: the ports of a spec have distinct names and distinct (protocol,
  port) pairs, the endpoint (ip, port, port name) triples are distinct, names of
  Kubernetes objects hold neither `/` nor `:`, and the spec has an ip. Octavia's
  store holds the resources of one service. The port of a load balancer's address
  is there exactly as long as the load balancer, and has a security group.
- Pools: deleting a port and setting the groups of a port that is handed out
  succeed. A rename under `port_debug` and the removal of subports may fail. A
  pod's port exists in Neutron while the pod has it. Operations are taken one at
  a time, which the code does not enforce: only the start-up, the recycling round
  and the nested pool manager's population are synchronized, while requests,
  background populations, the removal of a security group and the deletion of a
  network are not. The invariants of the maps and `VifPool.RunBounded` rest on it.
- Network policies: ports are numbers from 1 to 65535, the protocol is one of
  TCP, UDP and SCTP, and selectors are tests applied by the API server to one
  snapshot of the cluster. What a policy means is compared with its own rules; the
  default rules of its group let the subnets of services and hosts in on top. A CIDR is a range of addresses, and the list of
  prefixes that makes up a CIDR without another is one or two ranges.
- Rule update: equal stored rules carry equal ids, which every creation and
  update of live rules brings about (`RuleUpdate.LiveShare`). Neutron keeps the
  bodies of a security group's rules distinct.
- Event pipeline: a handler does not raise, a thread's exit and the removal of
  its queue are one step, and a caller blocked on a full queue gets its event in
  before the thread waits out its grace period.
- Retry: time does not run backwards, and a sleep lasts as long as asked.

## What the code does differently from what it is for

- An Endpoints object with a ready pod and a subset whose pods are none of them
  ready, as with pods of two versions on different ports, ends every run at once
  with an error: the pass over the saved members takes the addresses of every
  subset to be there, and their ports, though the passes before and after it do
  not (`LbaasHandler.LoadBalancerHandler.SyncMembers`,
  `LbaasHandler.LoadBalancerHandler.NotReadyIsStuck`).
- A run that replaces a service's load balancer and dies after releasing the old
  one cannot be taken up again if a listener was to be released: releasing it
  looks up the port of an address that is gone, an error no retry helps against.
  It happens exactly with the old load balancer saved and gone, another address
  in the spec, a saved listener without use, and rules kept in the address's own
  security group. Of the steps modelled nothing but these two ends a run that has
  enough calls (`LbaasHandler.LoadBalancerHandler.SyncMembers`,
  `LbaasHandler.LoadBalancerHandler.StuckIff`).
- Stored rules that are kept get their ids back before the comparison, so they
  are deleted and created again; and a rule stored twice, which a policy that
  repeats a rule leaves behind, is deleted and not created again
  (`RuleUpdate.LiveIff`, `RuleUpdate.RuleUpdater.RepeatedRuleIsLost`).
- Of the pods selected across several namespaces only the last namespace's get
  rules; several exceptions of one `ipBlock` cancel each other; a block whose
  `from` names only blocks without addresses is open on its ports; `{}` counts
  only as the first block (`NetworkPolicy.OneBlockExactIff`,
  `NetworkPolicy.LaterOpenBlockIsLost`, `NetworkPolicy.MisplacedOpenIff`).
- `namespaceSelector: {}` without a `podSelector` opens a block to any source,
  not only to pods, and a block without ports opens every TCP port, where
  Kubernetes means every port of every protocol. The model's reading of policies
  follows the code in both.
- A listener does not count a rule without a protocol. So an egress-only policy,
  whose group is open to all, closes the listeners in front of its pods; and the
  subnets of services and hosts, which every policy's group lets in by default
  rules, get through a listener only where rules of the policy's own let them in
  (`ListenerAcl.PolicyReachesListener`, `ListenerAcl.DenyAllIsNotMatched`).
- Releasing a port that is still in a pool would put it in two places
  (`VifPool.VifPoolDriver.ReleaseVif`), a group recycled without known groups
  makes the removal of a security group fail
  (`VifPool.VifPoolDriver.RemoveSgFromPools`), and a pool with ports may refuse a
  request (`VifPool.NoPortDespitePorts`).
- A patch that leaves an object without annotations ends with an error although
  it was written; only a request for nothing but removals can end so
  (`Annotate.K8sClient.Annotate`, `Annotate.MayEmptyIff`).

## Model

| member | source | states |
|---|---|---|
| LbaasHandler.LoadBalancerHandler.SyncMembers | kuryr_kubernetes/controller/handlers/lbaas.py:269-284 | A reconciliation is cut short only for want of calls, of which a number in the sizes of state, spec and targets is enough; with enough calls it gets through if and only if it is not stuck, and crashes if and only if it is, at once and with nothing changed if the Endpoints object cannot be read. What it leaves is recoverable from the saved state; when it completes, state and Octavia agree, references hold, and "changed" is reported exactly when there was work |
| LbaasHandler.LoadBalancerHandler.SyncWithRestarts | kuryr_kubernetes/controller/handlers/lbaas.py:269-284 | From any recoverable resources, restarted from the saved state any number of times, the first run that gets through ends reconciled, with nothing else left in Octavia. Restarts from stuck resources never get there, and an Endpoints object that cannot be read leaves them as they were; a first run with enough calls does if and only if it is not stuck, and an input that cannot get stuck gets there as soon as a run has enough calls |
| LbaasHandler.LoadBalancerHandler.StuckIff | kuryr_kubernetes/controller/handlers/lbaas.py:269-284 | A recoverable state is stuck if and only if the Endpoints object cannot be read, or the input may lose its load balancer too early, which is known beforehand, and that is gone |
| LbaasHandler.LoadBalancerHandler.StuckOnceReleased | kuryr_kubernetes/controller/drivers/lbaasv2.py:390-407 | Every input that may lose its load balancer too early is stuck once that is released, though all is recoverable |
| LbaasHandler.LoadBalancerHandler.MovedServiceIsStuck | kuryr_kubernetes/controller/drivers/lbaasv2.py:390-407 | One such input: a service that moves to another address and another port |
| LbaasHandler.LoadBalancerHandler.NotReadyIsStuck | kuryr_kubernetes/controller/handlers/lbaas.py:428-433 | A service new to Octavia, with one ready pod and one subset without addresses: it is recoverable, and no run gets through |
| LbaasHandler.LoadBalancerHandler.CutOffAfterRelease | kuryr_kubernetes/controller/handlers/lbaas.py:594-610 | With such an input, once the load balancer is released no number of restarts from the saved state gets through |
| LbaasOutcome.SameOutcome | kuryr_kubernetes/controller/handlers/lbaas.py:269-284 | All runs that complete from one saved state end alike: same listeners, pools and members place by place, up to the ids of what they created |
| LbaasHandler.LoadBalancerHandler.SyncTwice | kuryr_kubernetes/controller/handlers/lbaas.py:269-284 | A second sync on the same input reports no change |
| LbaasOutcome.SecondRunIdle | kuryr_kubernetes/controller/handlers/lbaas.py:269-284 | From a reconciled state nothing is unused, nothing is missing, and the only reconciled result is the state itself |
| LbaasOutcome.ListenersExact | kuryr_kubernetes/controller/handlers/lbaas.py:513-570 | With double listeners, the listeners are exactly the spec's (protocol, port) pairs with a supported protocol |
| LbaasOutcome.ListenersSingle | kuryr_kubernetes/controller/handlers/lbaas.py:527-555 | Without double listeners, port numbers stay pairwise distinct, and every supported port of the spec is taken |
| LbaasOutcome.SharedPortProtocol | kuryr_kubernetes/controller/handlers/lbaas.py:529-546 | Without double listeners, a port number no kept listener has gets a listener exactly when the spec asks for one, for SCTP if that is asked for and supported, else for TCP, else for UDP |
| LbaasOutcome.ListenerHasPool | kuryr_kubernetes/controller/handlers/lbaas.py:456-483 | Every listener ends with its own pool |
| LbaasOutcome.ListenersInSpec | kuryr_kubernetes/controller/handlers/lbaas.py:557-570 | No listener outside the spec is left |
| LbaasOutcome.SpecCovered | kuryr_kubernetes/controller/handlers/lbaas.py:527-555 | Every port of the spec is listened to, or shut out by the port rule or the protocol |
| LbaasOutcome.MembersExact | kuryr_kubernetes/controller/handlers/lbaas.py:300-392 | Members and endpoint targets correspond one to one: a target has a member exactly when its port is in the spec with a supported protocol, and only one |
| LbaasOutcome.MembersWanted | kuryr_kubernetes/controller/handlers/lbaas.py:421-454 | Every member left serves some endpoint target, in the pool of the target's port |
| LbaasOutcome.TargetsServed | kuryr_kubernetes/controller/handlers/lbaas.py:300-392 | Every target whose port is listened to has a member |
| LbaasModel.PodNameRoundTrip | kuryr_kubernetes/controller/drivers/lbaasv2.py:437-441 | Parsing the pod's name from a member's name undoes how the member was named |
| LbaasModel.MemberNameReads | kuryr_kubernetes/controller/drivers/lbaasv2.py:437-441 | A member's name reads back as namespace, pod and port, the port in decimal |
| LbaasModel.MemberNameInjective | kuryr_kubernetes/controller/drivers/lbaasv2.py:437-441 | Members of different pods or ports have different names |
| LbaasOutcome.KeyForInjective | kuryr_kubernetes/controller/handlers/lbaas.py:421-436 | A pool answers to one port name only |
| LbaasModel.SortedPorts | kuryr_kubernetes/controller/handlers/lbaas.py:527-535 | The ports are taken in order of protocol, SCTP before TCP before UDP, none lost and none twice |
| LbaasOutcome.NewKeysFacts | kuryr_kubernetes/controller/handlers/lbaas.py:527-555 | The listeners added are new, in the spec, supported and distinct, and with those there cover every port |
| LbaasOutcome.CompletedIsConsistent | kuryr_kubernetes/controller/handlers/lbaas.py:269-284 | A completed sync has, in Octavia, exactly the resources of its state, and every pool's listener and member's pool is there |
| LbaasRecovery.ConsistentIsRecoverable | kuryr_kubernetes/controller/handlers/lbaas.py:179-225 | A saved state that agrees with Octavia can be started from |
| LbaasRecovery.DelPoolRecoverable | kuryr_kubernetes/controller/handlers/lbaas.py:498-511 | Deleting a pool no longer in the spec, with its members, keeps the saved state recoverable |
| LbaasRecovery.DelListenerRecoverable | kuryr_kubernetes/controller/handlers/lbaas.py:557-570 | So does deleting a listener without a pool |
| LbaasRecovery.DelMemberRecoverable | kuryr_kubernetes/controller/handlers/lbaas.py:421-454 | So does deleting a member no target asks for |
| LbaasRecovery.DelLbRecoverable | kuryr_kubernetes/controller/handlers/lbaas.py:594-633 | So does deleting a load balancer of another ip, which leaves nothing unwanted |
| LbaasRecovery.AddListenerRecoverable | kuryr_kubernetes/controller/handlers/lbaas.py:527-555 | So does creating a listener that is to be added |
| LbaasRecovery.AddPoolRecoverable | kuryr_kubernetes/controller/handlers/lbaas.py:470-483 | So does creating the pool of a new listener |
| LbaasRecovery.AddMemberRecoverable | kuryr_kubernetes/controller/handlers/lbaas.py:300-392 | So does creating a missing member |
| LbaasRecovery.KeptPoolLinked | kuryr_kubernetes/controller/handlers/lbaas.py:498-511 | A pool that is kept keeps its listener |
| LbaasRecovery.KeptMemberLinked | kuryr_kubernetes/controller/handlers/lbaas.py:498-511 | A member that is kept keeps its pool |
| LbaasRecovery.KeptListenerLinked | kuryr_kubernetes/controller/handlers/lbaas.py:557-570 | A listener is kept only with its own pool, in the spec |
| LbaasHandler.LoadBalancerHandler.RemoveUnusedMembers | kuryr_kubernetes/controller/handlers/lbaas.py:421-454 | Crashes exactly when a subset cannot be read, before anything is released; otherwise removes exactly the members whose pod, ip, port and pool are no current target, from the state and from Octavia |
| LbaasHandler.LoadBalancerHandler.RemoveUnusedPools | kuryr_kubernetes/controller/handlers/lbaas.py:498-511 | Removes exactly the pools outside the spec, and their members |
| LbaasHandler.LoadBalancerHandler.RemoveUnusedListeners | kuryr_kubernetes/controller/handlers/lbaas.py:557-570 | Removes exactly the listeners left without a pool; it crashes if and only if there is one, its load balancer is gone, and its rule is in the group of the address |
| LbaasHandler.LoadBalancerHandler.AddNewListeners | kuryr_kubernetes/controller/handlers/lbaas.py:527-555 | Adds exactly the missing listeners, after those kept, each in Octavia |
| LbaasHandler.LoadBalancerHandler.AddNewPools | kuryr_kubernetes/controller/handlers/lbaas.py:470-483 | Gives every new listener its pool, and no other |
| LbaasHandler.LoadBalancerHandler.AddNewMembers | kuryr_kubernetes/controller/handlers/lbaas.py:300-392 | Adds exactly the missing members, each in the pool of its target's port |
| LbaasHandler.LoadBalancerHandler.SyncLoadBalancer | kuryr_kubernetes/controller/handlers/lbaas.py:594-633 | A load balancer of another ip goes with all on it, and one of the spec's ip is there afterwards |
| LbaasHandler.LoadBalancerHandler.GetPortInPool | kuryr_kubernetes/controller/handlers/lbaas.py:412-419 | Finds a port of the spec for a pool if and only if there is one |
| LbaasHandler.LoadBalancerHandler.IsPoolInSpec | kuryr_kubernetes/controller/handlers/lbaas.py:485-496 | The nested search says whether the pool's name is in the spec |
| LbaasHandler.LoadBalancerHandler.CurrentTargets | kuryr_kubernetes/controller/handlers/lbaas.py:421-436 | Collecting the current targets fails exactly when a subset has no addresses, or addresses and no ports; otherwise the set tells every saved member still wanted from every other |
| LbaasHandler.LoadBalancerHandler.ReadTargets | kuryr_kubernetes/controller/handlers/lbaas.py:428-433 | Reading the subsets fails exactly when one has no addresses, or addresses and no ports; otherwise it gives all targets |
| LbaasHandler.LoadBalancerHandler.OnDeleted | kuryr_kubernetes/controller/handlers/lbaas.py:227-237 | When the Endpoints object goes, so does everything of the service; a state without a load balancer cannot be released |
| LbaasDriver.Octavia.ReleaseListener | kuryr_kubernetes/controller/drivers/lbaasv2.py:390-407 | The listener goes, then its rule; looking up the group of the address crashes exactly when no load balancer has the address |
| LbaasDriver.Octavia.EnsureListener | kuryr_kubernetes/controller/drivers/lbaasv2.py:367-388 | Get-or-create: an unsupported protocol gives none; otherwise the listener is one that was there, untouched, or a new one when none had its key |
| LbaasDriver.Octavia.EnsurePool | kuryr_kubernetes/controller/drivers/lbaasv2.py:410-418 | Get-or-create of a listener's pool, by the listener |
| LbaasDriver.Octavia.EnsureMember | kuryr_kubernetes/controller/drivers/lbaasv2.py:437-463 | Get-or-create of a member; it is not found only when a member of another name has its ip and port |
| LbaasDriver.Octavia.EnsureLoadBalancer | kuryr_kubernetes/controller/drivers/lbaasv2.py:659-672 | Get-or-create of the load balancer of an ip |
| VifPool.OnePlace | kuryr_kubernetes/controller/drivers/vif_pool.py:135-150 | In consistent maps no port is at two positions of the lists or both listed and recyclable; each of these has a stored vif and a Neutron port, and all others are in use |
| VifPool.RunBounded | kuryr_kubernetes/controller/drivers/vif_pool.py:238-252 | With a positive maximum and a batch of at least one, from empty pools, in every run of operations taken one at a time, failed removals of a security group among them, no pool exceeds the larger of ports_pool_max and ports_pool_min + ports_pool_batch - 1 |
| VifPool.StepBounded | kuryr_kubernetes/controller/drivers/vif_pool.py:525-571 | No single operation takes a pool over that limit, nor does the removal of a security group that stops half way |
| VifPool.PopulateReachesMin | kuryr_kubernetes/controller/drivers/vif_pool.py:238-252 | A population that passes the size test and gets its ports ends at the minimum or more |
| VifPool.UngroupedKeepsPools | kuryr_kubernetes/controller/drivers/vif_pool.py:304-329 | Removing a security group keeps every pool's ports, leaves no port under a list that names it, and moves ports of its network only |
| VifPool.PartlyKeepsPools | kuryr_kubernetes/controller/drivers/vif_pool.py:304-329 | A removal that stops half way keeps every pool's ports, and leaves the same to do |
| VifPool.NoPortDespitePorts | kuryr_kubernetes/controller/drivers/vif_pool.py:472-495 | A pool with ports may refuse a request, when its last update names only a drained group; without a recorded update it cannot |
| VifPool.AppendMatches | kuryr_kubernetes/controller/drivers/vif_pool.py:249-252 | Appending a port to a list puts it there and nowhere else |
| VifPool.PopMatches | kuryr_kubernetes/controller/drivers/vif_pool.py:470-472 | Popping takes out a port that was available there, once and for all |
| VifPool.DeleteGroupMatches | kuryr_kubernetes/controller/drivers/vif_pool.py:312-314 | Deleting a list takes out exactly its ports |
| VifPool.ClearMatches | kuryr_kubernetes/controller/drivers/vif_pool.py:654-654 | Emptying a pool takes out exactly its ports |
| VifPool.VifPoolDriver.GetPoolSize | kuryr_kubernetes/controller/drivers/vif_pool.py:175-180 | The size is the number of ports available in the pool |
| VifPool.VifPoolDriver.GetPortFromPool | kuryr_kubernetes/controller/drivers/vif_pool.py:465-507 | A request gets none exactly when its own group and the groups of the last update are drained; else the last port of its own list, or of the list that was updated longest ago, leaves the pool, with the groups asked for and its stored vif |
| VifPool.VifPoolDriver.OldestGroup | kuryr_kubernetes/controller/drivers/vif_pool.py:484-495 | The group reused is, of those with ports, the one updated longest ago |
| VifPool.VifPoolDriver.PopulatePool | kuryr_kubernetes/controller/drivers/vif_pool.py:216-254 | Within the interval nothing happens; otherwise the last update is replaced, and a pool below the minimum gets, under the groups asked for, the batch or what is missing, whichever is more, unless Neutron grants less |
| VifPool.VifPoolDriver.ReleaseVif | kuryr_kubernetes/controller/drivers/vif_pool.py:256-270 | A released port waits to be recycled; after releasing a port that is still available, no account of where the ports are fits the maps |
| VifPool.VifPoolDriver.ReturnPort | kuryr_kubernetes/controller/drivers/vif_pool.py:543-571 | A recycled port goes back to its pool, without debugging under the groups Neutron reports; it is deleted when the pool is full, and stays when its rename or subport removal fails; no other port changes |
| VifPool.VifPoolDriver.TriggerReturnToPool | kuryr_kubernetes/controller/drivers/vif_pool.py:525-571 | A round leaves recyclable only ports with a failure, puts ports back under the groups Neutron reported, deletes only for full pools, and changes the groups of none |
| VifPool.VifPoolDriver.DeletePort | kuryr_kubernetes/controller/drivers/vif_pool.py:799-823 | A port recycled into a full pool loses its vif, its Neutron port and its place |
| VifPool.VifPoolDriver.DeleteNetworkPools | kuryr_kubernetes/controller/drivers/vif_pool.py:627-654 | After a recycling round exactly the available ports of the network go, with vif and Neutron port; without failures nothing of the network is left available or recyclable |
| VifPool.VifPoolDriver.EmptyNet | kuryr_kubernetes/controller/drivers/vif_pool.py:1003-1023 | A nested pool whose subports cannot be detached keeps its ports, and other networks keep theirs |
| VifPool.VifPoolDriver.RemoveSgFromPools | kuryr_kubernetes/controller/drivers/vif_pool.py:304-329 | Succeeds exactly when no list of the network was recycled without groups; then it is the step of UngroupedKeepsPools, and the touched pools count as updated longest ago; else some lists of the network that name the group are moved, and nothing else. Either way Neutron has no groups for a port that moved, and the old ones for any other |
| VifPool.VifPoolDriver.MoveGroup | kuryr_kubernetes/controller/drivers/vif_pool.py:311-329 | The ports of one list move to the list without groups, and lose theirs in Neutron; no other port does |
| VifPool.VifPoolDriver.SyncPools | kuryr_kubernetes/controller/drivers/vif_pool.py:573-625 | After start-up the pools hold exactly the bound ports not in use, under their groups, and unbound ones are deleted |
| NetworkPolicy.CompileAdmits | kuryr_kubernetes/controller/drivers/network_policy.py:434-546 | For every policy and cluster, exactly which (source, protocol, port) the emitted rules admit |
| NetworkPolicy.PolicyRefined | kuryr_kubernetes/controller/drivers/network_policy.py:434-546 | Within the guards the rules admit exactly what some block of the policy allows |
| NetworkPolicy.OneBlockExactIff | kuryr_kubernetes/controller/drivers/network_policy.py:434-546 | For one block with at most one peer, the rules are right for all traffic if and only if the guards hold |
| NetworkPolicy.PeerExactIff | kuryr_kubernetes/controller/drivers/network_policy.py:238-281 | A peer's rules admit its sources if and only if its guard holds |
| NetworkPolicy.IpBlockExactIff | kuryr_kubernetes/controller/drivers/network_policy.py:499-507 | An ipBlock's exceptions are honoured if and only if they all agree on the block |
| NetworkPolicy.NamespacePodsExactIff | kuryr_kubernetes/controller/drivers/network_policy.py:214-225 | Pods selected across namespaces are admitted if and only if none is left in another namespace than the last |
| NetworkPolicy.LaterOpenBlockIsLost | kuryr_kubernetes/controller/drivers/network_policy.py:478-483 | A `{}` that is not the first block adds no rule, and the rules are those of the policy without it |
| NetworkPolicy.MisplacedOpenIff | kuryr_kubernetes/controller/drivers/network_policy.py:478-483 | A policy with nothing wrong but a `{}` that is not the first block is right if and only if its other blocks allow all TCP |
| NetworkPolicy.LaterOpenBlockExample | kuryr_kubernetes/controller/drivers/network_policy.py:478-483 | A block for one address and then `{}`: the next address is kept out, though allowed |
| NetworkPolicy.ResourceRulesAdmit | kuryr_kubernetes/controller/drivers/network_policy.py:380-401 | The rules of a list of resources admit the resources' addresses on the port; resources without an address add none |
| NetworkPolicy.PeersHave | kuryr_kubernetes/controller/drivers/network_policy.py:238-281 | The resources found for the peers of a block hold exactly the sources the peers admit |
| NetworkPolicy.OnePeerAdmits | kuryr_kubernetes/controller/drivers/network_policy.py:434-546 | The rules of a block with one selector admit, of the sources of that peer, the listed ports and protocols, or all of TCP without a list |
| NetworkPolicy.OwnPodsAdmitted | kuryr_kubernetes/controller/drivers/network_policy.py:273-279 | The rules for a pod selector admit exactly the addresses of the pods with the labels in the policy's own namespace |
| NetworkPolicy.AllPodsAdmitted | kuryr_kubernetes/controller/drivers/network_policy.py:245-250 | With `{}` for the namespaces: the pods with the labels of any namespace |
| NetworkPolicy.LastNamespacePodsAdmitted | kuryr_kubernetes/controller/drivers/network_policy.py:214-225 | With a namespace selector: the pods with the labels in the last namespace selected |
| NetworkPolicy.NamespacesAdmitted | kuryr_kubernetes/controller/drivers/network_policy.py:254-264 | A namespace selector alone: every source in the subnet of some namespace selected, none if none is |
| NetworkPolicy.OwnNamespaceAdmitted | kuryr_kubernetes/controller/drivers/network_policy.py:266-272 | `{}` for the pods alone: every source in the subnet of the policy's namespace |
| NetworkPolicy.ExcludeHas | kuryr_kubernetes/controller/drivers/network_policy.py:500-505 | Excluding one block from another leaves exactly its other addresses |
| NetworkPolicy.NetworkPolicyDriver.ParseSgRules | kuryr_kubernetes/controller/drivers/network_policy.py:434-546 | The rule list grows by the policy's rules; from an empty list it admits what CompileAdmits says, and within the guards what the policy allows |
| NetworkPolicy.NetworkPolicyDriver.ParseSelectors | kuryr_kubernetes/controller/drivers/network_policy.py:238-281 | The pass over the peers finds whether all is allowed, whether there is a selector, and the selected resources in order |
| NetworkPolicy.NetworkPolicyDriver.GetPods | kuryr_kubernetes/controller/drivers/network_policy.py:214-225 | Of several selected namespaces only the last one's pods are returned |
| NetworkPolicy.NetworkPolicyDriver.CreateResourceRules | kuryr_kubernetes/controller/drivers/network_policy.py:380-401 | One rule for each resource with an address is appended |
| RuleUpdate.DistinctIsSound | kuryr_kubernetes/controller/drivers/network_policy.py:67-119 | From distinct stored rules the security group ends with the defaults and the parsed rules, and every rule of the custom resource has the id of a live rule with its body, even if the parsed list repeats some |
| RuleUpdate.LiveIff | kuryr_kubernetes/controller/drivers/network_policy.py:88-119 | All rules are live after an update if and only if no parsed rule was stored twice |
| RuleUpdate.FoundOnlyTwice | kuryr_kubernetes/controller/drivers/network_policy.py:90-106 | A parsed rule is found among the stored ones only if it was stored twice |
| RuleUpdate.AllDeleted | kuryr_kubernetes/controller/drivers/network_policy.py:90-102 | Every stored id is deleted, those of kept rules included |
| RuleUpdate.LiveShare | kuryr_kubernetes/controller/drivers/utils.py:173-195 | Live rules that are equal share their id |
| RuleUpdate.RuleUpdater.Update | kuryr_kubernetes/controller/drivers/network_policy.py:76-119 | Fails exactly when a stored rule has no id; otherwise leaves the parsed rules, each live unless it was stored twice, and in the group nothing but these and what no stored rule named |
| RuleUpdate.RuleUpdater.UpdateAll | kuryr_kubernetes/controller/drivers/network_policy.py:67-119 | As long as no parse repeats a rule, every update in turn succeeds and leaves the group sound |
| RuleUpdate.RuleUpdater.RepeatedRuleIsLost | kuryr_kubernetes/controller/drivers/network_policy.py:88-119 | A policy with a repeated rule loses it at the first update, and the second update fails |
| RuleUpdate.RuleUpdater.CreateRules | kuryr_kubernetes/controller/drivers/network_policy.py:178-185 | The first rules are all created and live; repeated ones share their id |
| RuleUpdate.RuleUpdater.DeleteRules | kuryr_kubernetes/controller/drivers/network_policy.py:97-102 | Deletes the ids of all stored rules |
| RuleUpdate.RuleUpdater.GiveIdsBack | kuryr_kubernetes/controller/drivers/network_policy.py:90-96 | Of equal stored rules still wanted, only the first gets its id back |
| RuleUpdate.RuleUpdater.SetIds | kuryr_kubernetes/controller/drivers/network_policy.py:107-115 | Through aliases, the created rule gets the live id, and no rule gets an id of another body |
| RuleUpdate.RuleUpdater.Create | kuryr_kubernetes/controller/drivers/utils.py:173-195 | Creating a rule gives the id of a live rule with its body, the one there on a conflict |
| ListenerAcl.CreateListenersAcls | kuryr_kubernetes/controller/drivers/lbaasv2.py:192-238 | The listener admits a source exactly when some group other than the balancer's is a default one or has a matching ingress rule; it is switched off exactly when no source is admitted |
| ListenerAcl.Update | kuryr_kubernetes/controller/drivers/lbaasv2.py:546-567 | The update admits every source without a list, and the listed sources with one, none if it is empty |
| ListenerAcl.CollectRules | kuryr_kubernetes/controller/drivers/lbaasv2.py:212-231 | The pass over a group's rules adds exactly the sources they let in to the target port |
| ListenerAcl.GroupsAdmitIff | kuryr_kubernetes/controller/drivers/lbaasv2.py:205-231 | A source is let in exactly by a default group, or by an ingress rule without a remote group for the protocol, whose range, if it has one that does not start at 0, holds the port, and whose prefix, if it has one, holds the source |
| ListenerAcl.OnlyIngressPrefixesMatter | kuryr_kubernetes/controller/drivers/lbaasv2.py:212-219 | Egress rules and rules for remote groups may go without a change |
| ListenerAcl.PolicyReachesListener | kuryr_kubernetes/controller/drivers/lbaasv2.py:212-231 | A policy's group, default rules included, and the listener admit the same sources if and only if the policy is not of egress only and its own rules admit the default subnets |
| ListenerAcl.DenyAllIsNotMatched | kuryr_kubernetes/controller/drivers/network_policy.py:125-149 | Under a policy that denies all ingress the group lets the service subnet in, and the listener nothing |
| CniRegistry.EntryLife | kuryr_kubernetes/cni/daemon/service.py:243-261 | In every interleaving, the entry of a pod name used once is there exactly from the first vif event until both the DELETED event and a DEL are through: it goes at the later of the two, once, and never returns |
| CniRegistry.RunNeverBoth | kuryr_kubernetes/cni/plugins/k8s_cni_registry.py:102-119 | In every interleaving no entry has both vif_unplugged and del_received |
| CniRegistry.ContainerIdSurvives | kuryr_kubernetes/cni/daemon/service.py:214-241 | A saved container id stays until another ADD saves one or the entry goes, whatever vif updates come |
| CniRegistry.ContainerIdIsLastSaved | kuryr_kubernetes/cni/plugins/k8s_cni_registry.py:56-65 | In every interleaving a saved container id is that of the last ADD that saved one, and the entry has been there since |
| CniRegistry.UnplugWasNotStale | kuryr_kubernetes/cni/plugins/k8s_cni_registry.py:88-101 | A DEL goes on to unplug only if, when it read the registry, the entry was gone or its saved container none, an empty one or the request's own |
| CniRegistry.ReadDecides | kuryr_kubernetes/cni/plugins/k8s_cni_registry.py:88-101 | A DEL that reads the container id of another request ends there, and any other goes on |
| CniRegistry.StepTracked | kuryr_kubernetes/cni/daemon/service.py:243-261 | Each step keeps the entry's flags equal to what has happened to the pod |
| CniRegistry.VifsStored | kuryr_kubernetes/cni/daemon/service.py:214-241 | An event with the status of all interfaces is stored, and leaves container id and flags as they are |
| CniRegistry.WholeLife | kuryr_kubernetes/cni/plugins/k8s_cni_registry.py:83-119 | One run: an ADD, a late DEL that ends at its read, the DEL that unplugs, and the DELETED event with which the entry goes |
| CniRegistry.RegistryService.OnDone | kuryr_kubernetes/cni/daemon/service.py:214-241 | A vif event creates the entry, or stores the vifs if some status changed; it fails at an interface the entry does not have |
| AsyncQueue.OneThreadPerGroup | kuryr_kubernetes/handlers/asynchronous.py:52-61 | In every interleaving a group has at most one thread, present exactly while its queue is registered, and no queue is over its depth |
| AsyncQueue.HandledInOrder | kuryr_kubernetes/handlers/asynchronous.py:63-99 | The handled events are among the arrived ones, in order, and when a group is idle its last arrival was handled last |
| AsyncQueue.HandlesNewest | kuryr_kubernetes/handlers/asynchronous.py:93-99 | The handler is only ever called with the newest event of a group, but for one of a caller still blocked |
| AsyncQueue.RunInvariant | kuryr_kubernetes/handlers/asynchronous.py:52-111 | No event is lost or reordered: those arrived are those passed, the one held, those queued and the one blocked |
| AsyncQueue.StepAccounted | kuryr_kubernetes/handlers/asynchronous.py:63-99 | Each step keeps the events of every group accounted for |
| AsyncQueue.InOrderPositions | kuryr_kubernetes/handlers/asynchronous.py:63-99 | Events left in order sit at increasing positions of the arrivals |
| AsyncQueue.Async.Call | kuryr_kubernetes/handlers/asynchronous.py:52-61 | A delivered event starts a thread for its group, joins its queue, or waits for room |
| AsyncQueue.Async.GetEvent | kuryr_kubernetes/handlers/asynchronous.py:69-98 | A thread takes its queue's first event, dropping the one it holds |
| AsyncQueue.Async.CallHandler | kuryr_kubernetes/handlers/asynchronous.py:95-99 | The handler is called with the newest event, the queue being empty |
| AsyncQueue.Async.Done | kuryr_kubernetes/handlers/asynchronous.py:101-111 | A thread that stops takes its registered queue with it, and every event is still accounted for |
| Retry.Call | kuryr_kubernetes/handlers/retry.py:54-97 | At most ceil(timeout/interval) + 1 calls; all but the last failed retryably; an error is raised on a retryable failure only after the deadline; the handler is reported dead for exactly the errors meant; the n-th sleep lasts at most 2^n - 1 intervals, the first exactly one; the loop ends |
| Retry.ExponentialSleep | kuryr_kubernetes/utils.py:112-141 | A sleep lasts at least an interval and ends by the deadline or after one interval; none after the deadline |
| Retry.SleepsBounded | kuryr_kubernetes/handlers/retry.py:99-113 | Sleeps of at least an interval, begun before the deadline, number at most ceil(timeout/interval) |
| Retry.SleepsAdvance | kuryr_kubernetes/utils.py:126-141 | After n sleeps at least n intervals have passed |
| AddressPairs.PairsConserved | kuryr_kubernetes/controller/drivers/nested_macvlan_vif.py:95-162 | In every interleaving the port's pairs, as a multiset, are the first ones and those each write of a request added, less those each write of a release removed |
| AddressPairs.DoneClientsConserved | kuryr_kubernetes/controller/drivers/nested_macvlan_vif.py:38-79 | No change is lost: of every pair the port holds its first ones and one for each request of it that succeeded, less those releases took out, each one at most |
| AddressPairs.DoneWrote | kuryr_kubernetes/controller/drivers/nested_macvlan_vif.py:164-177 | A request that succeeded has written; a release that did has written or found none of its pairs |
| AddressPairs.WritesOnce | kuryr_kubernetes/controller/drivers/nested_macvlan_vif.py:164-177 | No call writes twice |
| AddressPairs.TryDecides | kuryr_kubernetes/controller/drivers/nested_macvlan_vif.py:164-177 | An attempt ends its call exactly if it has nothing to remove or the port is still at the revision read, which alone writes; else one attempt is gone, and with the last one the call fails |
| AddressPairs.FailedIsSpent | kuryr_kubernetes/controller/drivers/nested_macvlan_vif.py:164-177 | A call fails only with an error or after its last attempt; until it is over it has one left |
| AddressPairs.TriesBounded | kuryr_kubernetes/controller/drivers/nested_macvlan_vif.py:164-177 | No call tries more often than it is configured to |
| AddressPairs.RunFresh | kuryr_kubernetes/controller/drivers/nested_macvlan_vif.py:158-162 | What a client read at the current revision is what the port holds |
| AddressPairs.AddToAllowedAddressPairs | kuryr_kubernetes/controller/drivers/nested_macvlan_vif.py:95-129 | One pair for each address is appended; without an address it is an error, and so is a pair already there with the identical string |
| AddressPairs.RemoveFromAllowedAddressPairs | kuryr_kubernetes/controller/drivers/nested_macvlan_vif.py:131-156 | Of each pair one occurrence goes, and there is something to write exactly when one was found |
| AddressPairs.NodePort.RequestVif | kuryr_kubernetes/controller/drivers/nested_macvlan_vif.py:38-59 | A request succeeds exactly at its first undisturbed attempt, on top of what the others left, unless it is refused before, and otherwise changes nothing; it is refused exactly without an attempt or an address, or at the first attempt that finds one of its pairs among those it read |
| Annotate.K8sClient.Annotate | kuryr_kubernetes/k8s_client.py:212-259 | A normal return shows a moment at which merging the request changed nothing; the call writes at most once, only requested keys and only if nobody wrote since the version was read, and every retry but the first is paid for by another writer. Only an error of its last attempt makes it fail. It ends without annotations to return if and only if it wrote and left none, which takes a request for nothing but removals |
| Annotate.MayEmptyIff | kuryr_kubernetes/k8s_client.py:226-235 | A request can leave some object without annotations if and only if all its values are null |
| Annotate.K8sClient.RemovingTheLast | kuryr_kubernetes/k8s_client.py:233-235 | Removing an object's only annotation succeeds and is reported as an error |
| Annotate.PresentIffNoChange | kuryr_kubernetes/k8s_client.py:240-249 | Every requested annotation is present if and only if merging the request changes nothing |
| Annotate.MergeTakesEffect | kuryr_kubernetes/k8s_client.py:226-235 | The merge is idempotent, makes the request present and leaves other keys |
| Annotate.K8sClient.Check | kuryr_kubernetes/k8s_client.py:242-249 | The loop over the request finds whether all of it is there, null meaning absent |
| Annotate.K8sClient.Try | kuryr_kubernetes/k8s_client.py:226-252 | An attempt is not the last only if another writer moved the version and the request is not there; the last one has no annotations to return if and only if it wrote and left none |
| VlanSubports.NestedVlanDriver.RequestVifs | kuryr_kubernetes/controller/drivers/nested_vlan_vif.py:52-112 | All or none: with vifs, each port is on the trunk with its vif's VLAN, which no other subport there has; without, ports and trunk are as before but for others' subports; fewer than asked for only when ids run out |
| VlanSubports.NestedVlanDriver.CreateSubportsInfo | kuryr_kubernetes/controller/drivers/nested_vlan_vif.py:142-162 | As many distinct VLAN ids as asked for, none of them on a subport of the trunk, or all that are left |
| VlanSubports.NestedVlanDriver.GetInUseVlanIds | kuryr_kubernetes/controller/drivers/nested_vlan_vif.py:238-245 | The ids in use are those of the trunk's subports |
| VlanSubports.NestedVlanDriver.VlansOnTrunk | kuryr_kubernetes/controller/drivers/nested_vlan_vif.py:106-112 | After new ports are attached to a trunk, every vif carries the VLAN its port has there |

## Left out

- LbaasHandler.LoadBalancerHandler.SyncMembers: does not model members' subnets (with layer-3 mode), the rules and access lists of members and listeners except where a lookup for them ends the run, public addresses, and the waiting for Octavia's provisioning.
- LbaasOutcome.MembersExact: states the correspondence for Endpoints whose addresses are all backed by pods; other addresses get no member, and what they do to old ones is in MembersWanted.
- LbaasHandler.LoadBalancerHandler.OnDeleted: does not model the public address, and an Endpoints object without a saved state, for which nothing is done.
- LbaasDriver.Octavia.EnsureListener: an error of Octavia other than a conflict is modelled as the cut-off of the run; where it comes from looking up the load balancer's status, the code goes on without the listener.
- Service handler and spec generation, status annotations, leftover load balancers at start-up: single-branch steps around the reconciliation.
- VifPool.VifPoolDriver.SyncPools: takes the ports that belong outside the pools, the bindings and the leftovers as inputs, for both drivers; models the recovery without `port_debug`; the multi-pool driver is not modelled.
- VifPool.VifPoolDriver.ReleaseVif: the lookup of a pod's host for its pool key is an input; before the first sync, where requests and releases are refused, the maps are simply empty.
- VifPool.VifPoolDriver.GetPortFromPool: the population that a request may start in the background is an operation of its own.
- VifPool.RunBounded: start-up recovery is not one of its operations, since it takes over whatever Neutron holds.
- Freeing pools by hand and filling a nested pool through the pool manager: the first works on Neutron's current groups, the second asks for a fractional number of ports.
- NetworkPolicy.NetworkPolicyDriver.ParseSgRules: covers ingress and numeric ports; named ports, ports without a number, and egress blocks with the rules for services are not modelled.
- NetworkPolicy.OneBlockExactIff: exact for one block and one peer; with more blocks or peers one may make up for another, and then the guards are sufficient only (PolicyRefined).
- NetworkPolicy.NetworkPolicyDriver.GetPods: selector matching is the API server's and appears as a test on labels.
- RuleUpdate.RuleUpdater.Update: an error of Neutron in the middle of an update, and the change of the pod selector it reports, are not modelled.
- Rules recalculated when pods and namespaces come and go: this code drops rules by pod and tests a port range the wrong way round, so nothing is built on it.
- ListenerAcl.CreateListenersAcls: is about one listener; applying the members' groups to several listeners in turn, where one pass removes another's default rule, is not modelled.
- CniRegistry.RegistryService.OnDone: vifs are reduced to whether each interface is active; plugging, timeouts and health reports only end a request.
- AsyncQueue.Async.Call: what groups an event is an input, and timing appears only as the order of steps.
- Retry.Call: what the API server, the handler, the clock and the random numbers do is given by functions of the attempt.
- AddressPairs.NodePort.RequestVif: which strings are the identical object, on which the error for a pair already there depends, is an input; in the state machine it is a call that may give up.
- VlanSubports.NestedVlanDriver.RequestVifs: the segmentation driver gives any usable id outside the given ones; the retries for a single subport, which rebind the port to a list, are not modelled.
- Order of dictionaries: loops over dictionaries and sets take their elements in any order.
- HTTP, gRPC and REST plumbing, watchers, health checks, leader election, binding drivers, floating IPs and upgrade commands: input and output around the parts modelled.
