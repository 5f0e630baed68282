/**
 The registry of pods shared by the CNI daemon's watcher and its ADD and DEL
 requests. Each operation on an entry is one step under the pod's lock; the
 steps of the watcher and of any number of workers interleave freely.
 */
module CniRegistry {
  import opened Options

  type PodName = string
  type ContainerId = string

  // Whether each interface of the pod is active.
  type Vifs = map<string, bool>

  datatype Entry = Entry(vifs: Vifs, containerId: Option<ContainerId>, vifUnplugged: bool, delReceived: bool)

  type Registry = map<PodName, Entry>

  // ---------- the entries, one operation at a time ----------

  predicate Changed(was: Vifs, now: Vifs, seen: set<string>) {
    exists i :: i in seen && i in was && i in now && was[i] != now[i]
  }

  // The interfaces looked at before the pass over them ended; it ends early
  // at an interface the entry does not have.
  predicate LookedAt(reg: Registry, pod: PodName, vifs: Vifs, seen: set<string>) {
    pod in reg ==> seen <= vifs.Keys * reg[pod].vifs.Keys && (vifs.Keys <= reg[pod].vifs.Keys ==> seen == vifs.Keys)
  }

  function AfterDone(reg: Registry, pod: PodName, vifs: Vifs, seen: set<string>): Registry {
    if pod !in reg then reg[pod := Entry(vifs, None, false, false)]
    else if Changed(reg[pod].vifs, vifs, seen) then reg[pod := reg[pod].(vifs := vifs)]
    else reg
  }

  function AfterDeleted(reg: Registry, pod: PodName): Registry {
    if pod !in reg then reg else if reg[pod].vifUnplugged then reg - {pod} else reg[pod := reg[pod].(delReceived := true)]
  }

  function AfterAdd(reg: Registry, pod: PodName, container: ContainerId): Registry {
    if pod !in reg then reg else reg[pod := reg[pod].(containerId := Some(container))]
  }

  function AfterUnplug(reg: Registry, pod: PodName): Registry {
    if pod !in reg then reg else if reg[pod].delReceived then reg - {pod} else reg[pod := reg[pod].(vifUnplugged := true)]
  }

  // A DEL for a container other than the one saved is of an older ADD.
  predicate StaleDel(reg: Registry, pod: PodName, container: ContainerId) {
    pod in reg && reg[pod].containerId.Some? && reg[pod].containerId.value != "" && reg[pod].containerId.value != container
  }

  class RegistryService {
    var registry: Registry

    constructor ()
      ensures registry == map[]
    {
      registry := map[];
    }

    // The watcher saw the pod with its vifs; fails at an interface unknown to the entry.
    method OnDone(pod: PodName, vifs: Vifs) returns (ok: bool, ghost seen: set<string>)
      modifies this
      ensures LookedAt(old(registry), pod, vifs, seen) && registry == AfterDone(old(registry), pod, vifs, seen)
      ensures ok <==> (pod in old(registry) ==> vifs.Keys <= old(registry[pod].vifs.Keys))
    {
      if pod !in registry {
        registry := registry[pod := Entry(vifs, None, false, false)];
        return true, {};
      }
      ok, seen := UpdateVifs(pod, vifs);
    }

    // Stores the vifs if the status of some interface changed.
    method UpdateVifs(pod: PodName, vifs: Vifs) returns (ok: bool, ghost seen: set<string>)
      requires pod in registry
      modifies this
      ensures LookedAt(old(registry), pod, vifs, seen) && registry == AfterDone(old(registry), pod, vifs, seen)
      ensures ok <==> vifs.Keys <= old(registry[pod].vifs.Keys)
    {
      hide Changed;
      var was := registry[pod].vifs;
      NothingChanged(was, vifs);
      ok, seen := true, {};
      var todo := vifs.Keys;
      while todo != {}
        invariant ok && seen == vifs.Keys - todo && todo <= vifs.Keys && seen <= was.Keys
        invariant registry == AfterDone(old(registry), pod, vifs, seen)
        decreases |todo|
      {
        var iface :| iface in todo;
        if iface !in was { return false, seen; }
        LookedAtOne(was, vifs, seen, iface);
        assert vifs.Keys - (todo - {iface}) == seen + {iface};
        todo, seen := todo - {iface}, seen + {iface};
        if was[iface] != vifs[iface] {
          registry := registry[pod := registry[pod].(vifs := vifs)];
        }
      }
    }

    lemma NothingChanged(was: Vifs, now: Vifs)
      ensures !Changed(was, now, {})
    {
    }

    lemma LookedAtOne(was: Vifs, now: Vifs, seen: set<string>, iface: string)
      requires iface in was && iface in now
      ensures Changed(was, now, seen + {iface}) <==> Changed(was, now, seen) || was[iface] != now[iface]
    {
      if Changed(was, now, seen) {
        var i :| i in seen && i in was && i in now && was[i] != now[i];
        assert i in seen + {iface};
      }
      assert iface in seen + {iface};
    }

    // The locked half of the watcher's reaction to a deleted pod.
    method OnDeletedLocked(pod: PodName) returns (found: bool)
      modifies this
      ensures found == (pod in old(registry)) && registry == AfterDeleted(old(registry), pod)
    {
      if pod !in registry { return false; }
      if registry[pod].vifUnplugged {
        registry := registry - {pod};
      } else {
        registry := registry[pod := registry[pod].(delReceived := true)];
      }
      return true;
    }

    method SaveContainer(pod: PodName, container: ContainerId) returns (found: bool)
      modifies this
      ensures found == (pod in old(registry)) && registry == AfterAdd(old(registry), pod, container)
    {
      if pod !in registry { return false; }
      registry := registry[pod := registry[pod].(containerId := Some(container))];
      return true;
    }

    method FinishDelete(pod: PodName) returns (found: bool)
      modifies this
      ensures found == (pod in old(registry)) && registry == AfterUnplug(old(registry), pod)
    {
      if pod !in registry { return false; }
      if registry[pod].delReceived {
        registry := registry - {pod};
      } else {
        registry := registry[pod := registry[pod].(vifUnplugged := true)];
      }
      return true;
    }
  }

  // ---------- the interleavings ----------

  datatype Watcher = Idle | Deleting(pod: PodName)

  datatype Phase = Finding | Connecting | Waiting | Reading | FindingToDelete | Disconnecting | Ended

  datatype Worker = Worker(pod: PodName, container: ContainerId, phase: Phase)

  datatype State = State(registry: Registry, watcher: Watcher, workers: map<nat, Worker>)

  datatype Step =
    | PodDone(pod: PodName, vifs: Vifs, seen: set<string>)
    | PodDeleted(pod: PodName)
    | DeletedLocked(pod: PodName)
    | StartAdd(w: nat, pod: PodName, container: ContainerId)
    | StartDel(w: nat, pod: PodName, container: ContainerId)
    | Find(w: nat)
    | SaveContainerId(w: nat)
    | ReadContainerId(w: nat)
    | Unplugged(w: nat)
    | GiveUp(w: nat)

  function At(s: State, w: nat, phase: Phase): State
    requires w in s.workers
  {
    s.(workers := s.workers[w := s.workers[w].(phase := phase)])
  }

  predicate In(s: State, w: nat, phase: Phase) { w in s.workers && s.workers[w].phase == phase }

  ghost predicate Next(s: State, step: Step, s': State) {
    match step
    case PodDone(pod, vifs, seen) =>
      s.watcher.Idle? && LookedAt(s.registry, pod, vifs, seen) && s' == s.(registry := AfterDone(s.registry, pod, vifs, seen))
    case PodDeleted(pod) => s.watcher.Idle? && s' == if pod in s.registry then s.(watcher := Deleting(pod)) else s
    case DeletedLocked(pod) =>
      s.watcher == Deleting(pod) && s' == s.(registry := AfterDeleted(s.registry, pod), watcher := Idle)
    case StartAdd(w, pod, container) => w !in s.workers && s' == s.(workers := s.workers[w := Worker(pod, container, Finding)])
    case StartDel(w, pod, container) => w !in s.workers && s' == s.(workers := s.workers[w := Worker(pod, container, Reading)])
    case Find(w) =>
      && w in s.workers && s.workers[w].phase in {Finding, FindingToDelete} && s.workers[w].pod in s.registry
      && s' == At(s, w, if s.workers[w].phase == Finding then Connecting else Disconnecting)
    case SaveContainerId(w) =>
      && In(s, w, Connecting)
      && s' == if s.workers[w].pod in s.registry
               then At(s, w, Waiting).(registry := AfterAdd(s.registry, s.workers[w].pod, s.workers[w].container))
               else At(s, w, Ended)
    case ReadContainerId(w) =>
      && In(s, w, Reading)
      && s' == At(s, w, if StaleDel(s.registry, s.workers[w].pod, s.workers[w].container) then Ended else FindingToDelete)
    case Unplugged(w) =>
      && In(s, w, Disconnecting)
      && s' == At(s, w, Ended).(registry := AfterUnplug(s.registry, s.workers[w].pod))
    // An error or a timeout ends the request; so does seeing all vifs active.
    case GiveUp(w) => w in s.workers && s' == At(s, w, Ended)
  }

  predicate Init(s: State) { s.registry == map[] && s.watcher == Idle && s.workers == map[] }

  ghost predicate Run(run: seq<State>, steps: seq<Step>) {
    && |run| == |steps| + 1 && Init(run[0])
    && forall i :: 0 <= i < |steps| ==> Next(run[i], steps[i], run[i + 1])
  }

  ghost predicate NeverBoth(reg: Registry) {
    forall pod :: pod in reg ==> !(reg[pod].vifUnplugged && reg[pod].delReceived)
  }

  lemma StepNeverBoth(s: State, step: Step, s': State)
    requires NeverBoth(s.registry) && Next(s, step, s')
    ensures NeverBoth(s'.registry)
  {
  }

  // In every interleaving, no entry has both flags.
  lemma {:induction false} RunNeverBoth(run: seq<State>, steps: seq<Step>)
    requires Run(run, steps)
    ensures forall i :: 0 <= i < |run| ==> NeverBoth(run[i].registry)
  {
    if steps != [] {
      var n := |steps| - 1;
      RunNeverBoth(run[..n + 1], steps[..n]);
      assert NeverBoth(run[..n + 1][n].registry);
      StepNeverBoth(run[n], steps[n], run[n + 1]);
      forall i | 0 <= i < |run| ensures NeverBoth(run[i].registry) {
        if i <= n { assert run[i] == run[..n + 1][i]; }
      }
    }
  }

  // ---------- the life of an entry ----------

  predicate IsDone(step: Step, pod: PodName) { step.PodDone? && step.pod == pod }

  // A DEL of the pod finished unplugging.
  predicate IsUnplug(s: State, step: Step, pod: PodName) { step.Unplugged? && step.w in s.workers && s.workers[step.w].pod == pod }

  predicate IsSave(s: State, step: Step, pod: PodName) { step.SaveContainerId? && step.w in s.workers && s.workers[step.w].pod == pod }

  // The pod's name is used once: one DELETED event, and no other event of the
  // pod after it. (The watcher handles events in order.)
  predicate UsedOnce(steps: seq<Step>, pod: PodName) {
    forall i, j :: 0 <= i < j < |steps| && steps[i] == PodDeleted(pod) ==> !IsDone(steps[j], pod) && steps[j] != PodDeleted(pod)
  }

  predicate SeenBy(steps: seq<Step>, n: nat, pod: PodName)
    requires n <= |steps|
  {
    exists i :: 0 <= i < n && IsDone(steps[i], pod)
  }

  predicate DeletedBy(steps: seq<Step>, n: nat, pod: PodName)
    requires n <= |steps|
  {
    exists i :: 0 <= i < n && steps[i] == DeletedLocked(pod)
  }

  predicate AnnouncedBy(steps: seq<Step>, n: nat, pod: PodName)
    requires n <= |steps|
  {
    exists i :: 0 <= i < n && steps[i] == PodDeleted(pod)
  }

  predicate UnpluggedBy(run: seq<State>, steps: seq<Step>, n: nat, pod: PodName)
    requires n <= |steps| && |run| == |steps| + 1
  {
    exists i :: 0 <= i < n && IsUnplug(run[i], steps[i], pod)
  }

  // What is known of the pod after n steps.
  ghost predicate Tracked(s: State, pod: PodName, seen: bool, announced: bool, deleted: bool, unplugged: bool) {
    && (pod in s.registry <==> seen && !(deleted && unplugged))
    && (pod in s.registry ==> s.registry[pod].delReceived == deleted && s.registry[pod].vifUnplugged == unplugged)
    && (s.watcher == Deleting(pod) ==> seen && announced && !deleted)
    && (deleted ==> seen && announced) && (unplugged ==> seen)
    && (forall w :: In(s, w, Disconnecting) && s.workers[w].pod == pod ==> seen)
  }

  lemma StepTracked(s: State, step: Step, s': State, pod: PodName, seen: bool, announced: bool, deleted: bool, unplugged: bool)
    requires Tracked(s, pod, seen, announced, deleted, unplugged) && Next(s, step, s')
    requires announced ==> !IsDone(step, pod) && step != PodDeleted(pod)
    ensures Tracked(s', pod, seen || IsDone(step, pod), announced || step == PodDeleted(pod), deleted || step == DeletedLocked(pod),
                    unplugged || IsUnplug(s, step, pod))
  {
  }

  // The entry of a pod whose name is used once is there exactly from the first
  // event with its vifs until both the DELETED event and a DEL are through:
  // it goes at the later of the two, once, and never returns.
  lemma {:induction false} EntryLife(run: seq<State>, steps: seq<Step>, pod: PodName, n: nat)
    requires Run(run, steps) && UsedOnce(steps, pod) && n <= |steps|
    ensures pod in run[n].registry <==>
              SeenBy(steps, n, pod) && !(DeletedBy(steps, n, pod) && UnpluggedBy(run, steps, n, pod))
    ensures Tracked(run[n], pod, SeenBy(steps, n, pod), AnnouncedBy(steps, n, pod), DeletedBy(steps, n, pod), UnpluggedBy(run, steps, n, pod))
  {
    if n > 0 {
      EntryLife(run, steps, pod, n - 1);
      assert AnnouncedBy(steps, n - 1, pod) ==> !IsDone(steps[n - 1], pod) && steps[n - 1] != PodDeleted(pod);
      StepTracked(run[n - 1], steps[n - 1], run[n], pod, SeenBy(steps, n - 1, pod), AnnouncedBy(steps, n - 1, pod),
                  DeletedBy(steps, n - 1, pod), UnpluggedBy(run, steps, n - 1, pod));
    }
  }

  // Between two moments with the entry there throughout, and no ADD saving its
  // container, the container id stays, whatever vif updates arrive.
  lemma {:induction false} ContainerIdSurvives(run: seq<State>, steps: seq<Step>, pod: PodName, i: nat, j: nat)
    requires Run(run, steps) && i <= j <= |steps|
    requires forall k :: i <= k <= j ==> pod in run[k].registry
    requires forall k :: i <= k < j ==> !IsSave(run[k], steps[k], pod)
    ensures run[j].registry[pod].containerId == run[i].registry[pod].containerId
  {
    if i < j {
      ContainerIdSurvives(run, steps, pod, i, j - 1);
      assert Next(run[j - 1], steps[j - 1], run[j]);
    }
  }

  // A DEL ends when it reads the container id of another request, and
  // otherwise goes on.
  lemma ReadDecides(s: State, w: nat, s': State)
    requires Next(s, ReadContainerId(w), s')
    ensures var at := s.workers[w];
            var other := at.pod in s.registry && s.registry[at.pod].containerId.Some?
                         && s.registry[at.pod].containerId.value != "" && s.registry[at.pod].containerId.value != at.container;
            s'.workers[w] == Worker(at.pod, at.container, if other then Ended else FindingToDelete)
    ensures s'.registry == s.registry && s'.watcher == s.watcher && s'.workers - {w} == s.workers - {w}
  {
    assert s'.workers - {w} == s.workers - {w};
  }

  // A DEL unplugs only if, when it read the registry, the entry was gone or
  // its saved container none, an empty one or the request's own.
  lemma {:induction false} UnplugWasNotStale(run: seq<State>, steps: seq<Step>, w: nat, n: nat) returns (k: nat)
    requires Run(run, steps) && n <= |steps| && w in run[n].workers && run[n].workers[w].phase in {FindingToDelete, Disconnecting}
    ensures k < n && steps[k] == ReadContainerId(w) && w in run[k].workers
    ensures run[k].workers[w] == Worker(run[n].workers[w].pod, run[n].workers[w].container, Reading)
    ensures var pod, reg := run[n].workers[w].pod, run[k].registry;
            pod !in reg || reg[pod].containerId.None? || reg[pod].containerId.value in {"", run[n].workers[w].container}
  {
    assert Next(run[n - 1], steps[n - 1], run[n]);
    if steps[n - 1] == ReadContainerId(w) {
      k := n - 1;
      ReadDecides(run[k], w, run[n]);
    } else {
      k := UnplugWasNotStale(run, steps, w, n - 1);
    }
  }

  // The saved container id is that of the last ADD that saved one, and the
  // entry has been there since.
  lemma {:induction false} ContainerIdIsLastSaved(run: seq<State>, steps: seq<Step>, pod: PodName, n: nat) returns (k: nat)
    requires Run(run, steps) && n <= |steps| && pod in run[n].registry && run[n].registry[pod].containerId.Some?
    ensures k < n && IsSave(run[k], steps[k], pod)
    ensures run[n].registry[pod].containerId == Some(run[k].workers[steps[k].w].container)
    ensures forall j :: k <= j <= n ==> pod in run[j].registry
    ensures forall j :: k < j < n ==> !IsSave(run[j], steps[j], pod)
  {
    assert Next(run[n - 1], steps[n - 1], run[n]);
    if IsSave(run[n - 1], steps[n - 1], pod) {
      k := n - 1;
    } else {
      k := ContainerIdIsLastSaved(run, steps, pod, n - 1);
    }
  }

  // Without one, no ADD has saved any since the entry was made.
  lemma {:induction false} NoContainerNoneSaved(run: seq<State>, steps: seq<Step>, pod: PodName, n: nat, k: nat)
    requires Run(run, steps) && k < n <= |steps| && IsSave(run[k], steps[k], pod)
    requires forall j :: k <= j <= n ==> pod in run[j].registry
    ensures run[n].registry[pod].containerId.Some?
  {
    assert Next(run[n - 1], steps[n - 1], run[n]);
    if k < n - 1 { NoContainerNoneSaved(run, steps, pod, n - 1, k); }
  }

  // An event with the status of every interface of the entry is stored, and
  // touches nothing but the vifs; the first event makes the entry.
  lemma VifsStored(s: State, pod: PodName, vifs: Vifs, seen: set<string>, s': State)
    requires Next(s, PodDone(pod, vifs, seen), s') && (pod in s.registry ==> vifs.Keys == s.registry[pod].vifs.Keys)
    ensures pod in s'.registry && s'.registry - {pod} == s.registry - {pod} && s'.workers == s.workers && s'.watcher == s.watcher
    ensures s'.registry[pod] == if pod in s.registry then s.registry[pod].(vifs := vifs) else Entry(vifs, None, false, false)
  {
    assert s'.registry - {pod} == s.registry - {pod};
    if pod in s.registry && !Changed(s.registry[pod].vifs, vifs, seen) { assert s.registry[pod].vifs == vifs; }
  }

  lemma Longer(run: seq<State>, steps: seq<Step>, step: Step, s: State)
    requires Run(run, steps) && |run| > 0 && Next(run[|run| - 1], step, s)
    ensures Run(run + [s], steps + [step]) && (run + [s])[|run|] == s
  {
    hide Next;
    var more, all := run + [s], steps + [step];
    forall i | 0 <= i < |all| ensures Next(more[i], all[i], more[i + 1]) {
      if i < |steps| { assert more[i] == run[i] && more[i + 1] == run[i + 1] && all[i] == steps[i]; }
    }
  }

  // One whole life: an ADD saves its container, a DEL of an older one ends
  // where it reads that, the container's own DEL unplugs, and the entry goes
  // with the DELETED event.
  lemma WholeLife(pod: PodName, vifs: Vifs, container: ContainerId, older: ContainerId) returns (run: seq<State>, steps: seq<Step>)
    requires container != "" && older != container
    ensures Run(run, steps)
    ensures steps == [PodDone(pod, vifs, {}), StartAdd(0, pod, container), Find(0)]
                     + [SaveContainerId(0), StartDel(1, pod, older), ReadContainerId(1)]
                     + [StartDel(2, pod, container), ReadContainerId(2), Find(2)]
                     + [Unplugged(2), PodDeleted(pod), DeletedLocked(pod)]
    ensures |run| > 0 && run[|run| - 1].registry == map[] && 1 in run[|run| - 1].workers && run[|run| - 1].workers[1] == Worker(pod, older, Ended)
  {
    var s0 := State(map[], Idle, map[]);
    run, steps := [s0], [];
    var s1 := s0.(registry := map[pod := Entry(vifs, None, false, false)]);
    var s2 := s1.(workers := map[0 := Worker(pod, container, Finding)]);
    var s3 := At(s2, 0, Connecting);
    var s4 := At(s3, 0, Waiting).(registry := map[pod := Entry(vifs, Some(container), false, false)]);
    var s5 := s4.(workers := s4.workers[1 := Worker(pod, older, Reading)]);
    var s6 := At(s5, 1, Ended);
    FirstHalf(pod, vifs, container, older, s0, s1, s2, s3, s4, s5, s6);
    var s7 := s6.(workers := s6.workers[2 := Worker(pod, container, Reading)]);
    var s8 := At(s7, 2, FindingToDelete);
    var s9 := At(s8, 2, Disconnecting);
    var s10 := At(s9, 2, Ended).(registry := map[pod := Entry(vifs, Some(container), true, false)]);
    var s11 := s10.(watcher := Deleting(pod));
    var s12 := State(map[], Idle, s11.workers);
    SecondHalf(pod, vifs, container, s6, s7, s8, s9, s10, s11, s12);
    assert Run(run, steps);
    hide Next, Run, At;
    run, steps := Longer3(run, steps, PodDone(pod, vifs, {}), s1, StartAdd(0, pod, container), s2, Find(0), s3);
    run, steps := Longer3(run, steps, SaveContainerId(0), s4, StartDel(1, pod, older), s5, ReadContainerId(1), s6);
    run, steps := Longer3(run, steps, StartDel(2, pod, container), s7, ReadContainerId(2), s8, Find(2), s9);
    run, steps := Longer3(run, steps, Unplugged(2), s10, PodDeleted(pod), s11, DeletedLocked(pod), s12);
  }

  lemma Longer3(run: seq<State>, steps: seq<Step>, a: Step, x: State, b: Step, y: State, c: Step, z: State)
    returns (more: seq<State>, all: seq<Step>)
    requires Run(run, steps) && |run| > 0 && Next(run[|run| - 1], a, x) && Next(x, b, y) && Next(y, c, z)
    ensures Run(more, all) && all == steps + [a, b, c] && |more| > 0 && more[|more| - 1] == z
  {
    hide Next, Run;
    Longer(run, steps, a, x);
    Longer(run + [x], steps + [a], b, y);
    more, all := run + [x] + [y] + [z], steps + [a] + [b] + [c];
    Longer(run + [x] + [y], steps + [a] + [b], c, z);
  }

  lemma FirstHalf(pod: PodName, vifs: Vifs, container: ContainerId, older: ContainerId, s0: State, s1: State, s2: State, s3: State,
                  s4: State, s5: State, s6: State)
    requires container != "" && older != container && s0 == State(map[], Idle, map[])
    requires s1 == s0.(registry := map[pod := Entry(vifs, None, false, false)])
    requires s2 == s1.(workers := map[0 := Worker(pod, container, Finding)])
    requires s3 == At(s2, 0, Connecting)
    requires s4 == At(s3, 0, Waiting).(registry := map[pod := Entry(vifs, Some(container), false, false)])
    requires s5 == s4.(workers := s4.workers[1 := Worker(pod, older, Reading)])
    requires s6 == At(s5, 1, Ended)
    ensures Next(s0, PodDone(pod, vifs, {}), s1) && Next(s1, StartAdd(0, pod, container), s2) && Next(s2, Find(0), s3)
    ensures Next(s3, SaveContainerId(0), s4) && Next(s4, StartDel(1, pod, older), s5) && Next(s5, ReadContainerId(1), s6)
  {
  }

  lemma SecondHalf(pod: PodName, vifs: Vifs, container: ContainerId, s6: State, s7: State, s8: State, s9: State, s10: State,
                   s11: State, s12: State)
    requires s6.registry == map[pod := Entry(vifs, Some(container), false, false)] && s6.watcher == Idle && 2 !in s6.workers
    requires s7 == s6.(workers := s6.workers[2 := Worker(pod, container, Reading)])
    requires s8 == At(s7, 2, FindingToDelete) && s9 == At(s8, 2, Disconnecting)
    requires s10 == At(s9, 2, Ended).(registry := map[pod := Entry(vifs, Some(container), true, false)])
    requires s11 == s10.(watcher := Deleting(pod)) && s12 == State(map[], Idle, s11.workers)
    ensures Next(s6, StartDel(2, pod, container), s7) && Next(s7, ReadContainerId(2), s8) && Next(s8, Find(2), s9)
    ensures Next(s9, Unplugged(2), s10) && Next(s10, PodDeleted(pod), s11) && Next(s11, DeletedLocked(pod), s12)
  {
  }
}
