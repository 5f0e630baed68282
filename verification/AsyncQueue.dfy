/**
 The queue of events between the watchers and the handlers. Events of one
 object form a group; each group with work has a queue and one thread, which
 skips to the newest event before it calls the handler. Threads are
 cooperative: a thread's exit and the removal of its queue are one step.
 */
module AsyncQueue {
  type Group = string
  type Event = nat
  type ThreadId = nat

  datatype Phase = Waiting | Holding(event: Event) | Handling(event: Event)

  // A thread and the queue it was started with.
  datatype Thread = Thread(group: Group, queue: seq<Event>, phase: Phase)

  // The events that arrived for a group, those its threads are done with, and
  // those that were handled.
  datatype History = History(arrived: seq<Event>, passed: seq<Event>, handled: seq<Event>)

  // The handler's dictionary of queues, the threads, the events of callers
  // blocked on a full queue, and the history of each group.
  datatype State = State(registered: map<Group, ThreadId>, threads: map<ThreadId, Thread>, blocked: map<Group, (ThreadId, Event)>,
                         history: map<Group, History>)

  datatype Step =
    | Arrive(g: Group, e: Event, t: ThreadId)
    | Put(g: Group)
    | Get(t: ThreadId)
    | Skip(t: ThreadId)
    | Handle(t: ThreadId)
    | Return(t: ThreadId)
    | Exit(t: ThreadId)

  function Of(s: State, g: Group): History { if g in s.history then s.history[g] else History([], [], []) }

  // The thread after it took the first event of its queue.
  function Taken(thread: Thread): Thread
    requires thread.queue != []
  {
    thread.(queue := thread.queue[1..], phase := Holding(thread.queue[0]))
  }

  // An event arrives: a new queue and a thread for it, or the queue the group has.
  ghost predicate Arrives(depth: nat, s: State, g: Group, e: Event, t: ThreadId, s': State) {
    var history := s.history[g := Of(s, g).(arrived := Of(s, g).arrived + [e])];
    && g !in s.blocked
    && if g !in s.registered then
         t !in s.threads && s' == State(s.registered[g := t], s.threads[t := Thread(g, [e], Waiting)], s.blocked, history)
       else
         && s.registered[g] in s.threads
         && var (u, thread) := (s.registered[g], s.threads[s.registered[g]]);
            if |thread.queue| < depth
            then s' == State(s.registered, s.threads[u := thread.(queue := thread.queue + [e])], s.blocked, history)
            else s' == State(s.registered, s.threads, s.blocked[g := (u, e)], history)
  }

  // A blocked caller gets its event into the queue it found.
  ghost predicate Puts(depth: nat, s: State, g: Group, s': State) {
    && g in s.blocked && s.blocked[g].0 in s.threads
    && var (t, e) := s.blocked[g];
       && |s.threads[t].queue| < depth
       && s' == State(s.registered, s.threads[t := s.threads[t].(queue := s.threads[t].queue + [e])], s.blocked - {g}, s.history)
  }

  // A thread turns into `thread`, and passes and handles the events given.
  predicate Turns(s: State, t: ThreadId, thread: Thread, passed: seq<Event>, handled: seq<Event>, s': State) {
    && t in s.threads
    && var g := s.threads[t].group;
       var h := Of(s, g);
       s' == State(s.registered, s.threads[t := thread], s.blocked,
                   s.history[g := History(h.arrived, h.passed + passed, h.handled + handled)])
  }

  // Nothing came within the grace period, nor is anyone blocked on the queue.
  predicate Exits(s: State, t: ThreadId, s': State) {
    && t in s.threads && s.threads[t].phase.Waiting? && s.threads[t].queue == [] && s.threads[t].group !in s.blocked
    && s' == State(s.registered - {s.threads[t].group}, s.threads - {t}, s.blocked, s.history)
  }

  ghost predicate Next(depth: nat, s: State, step: Step, s': State) {
    match step
    case Arrive(g, e, t) => Arrives(depth, s, g, e, t, s')
    case Put(g) => Puts(depth, s, g, s')
    case Get(t) =>
      t in s.threads && s.threads[t].phase.Waiting? && s.threads[t].queue != [] && Turns(s, t, Taken(s.threads[t]), [], [], s')
    case Skip(t) =>
      && t in s.threads && s.threads[t].phase.Holding? && s.threads[t].queue != []
      && Turns(s, t, Taken(s.threads[t]), [s.threads[t].phase.event], [], s')
    case Handle(t) =>
      && t in s.threads && s.threads[t].phase.Holding? && s.threads[t].queue == []
      && var e := s.threads[t].phase.event;
         Turns(s, t, s.threads[t].(phase := Handling(e)), [e], [e], s')
    case Return(t) => t in s.threads && s.threads[t].phase.Handling? && Turns(s, t, s.threads[t].(phase := Waiting), [], [], s')
    case Exit(t) => Exits(s, t, s')
  }

  predicate Init(s: State) { s.registered == map[] && s.threads == map[] && s.blocked == map[] && s.history == map[] }

  // `a` can be had from `b` by leaving events out.
  predicate InOrder(a: seq<Event>, b: seq<Event>) {
    a == [] || (b != [] && ((a[|a| - 1] == b[|b| - 1] && InOrder(a[..|a| - 1], b[..|b| - 1])) || InOrder(a, b[..|b| - 1])))
  }

  lemma InOrderSkip(a: seq<Event>, b: seq<Event>, e: Event)
    requires InOrder(a, b)
    ensures InOrder(a, b + [e])
  {
    assert (b + [e])[..|b|] == b;
  }

  lemma InOrderBoth(a: seq<Event>, b: seq<Event>, e: Event)
    requires InOrder(a, b)
    ensures InOrder(a + [e], b + [e])
  {
    assert (b + [e])[..|b|] == b && (a + [e])[..|a|] == a;
  }

  // The positions of the events that are left.
  lemma {:induction false} InOrderPositions(a: seq<Event>, b: seq<Event>) returns (at: seq<nat>)
    requires InOrder(a, b)
    ensures |at| == |a|
    ensures forall i :: 0 <= i < |a| ==> at[i] < |b| && b[at[i]] == a[i]
    ensures forall i, j :: 0 <= i < j < |a| ==> at[i] < at[j]
  {
    if a == [] {
      at := [];
    } else if a[|a| - 1] == b[|b| - 1] && InOrder(a[..|a| - 1], b[..|b| - 1]) {
      at := InOrderPositions(a[..|a| - 1], b[..|b| - 1]);
      at := at + [|b| - 1];
    } else {
      at := InOrderPositions(a, b[..|b| - 1]);
    }
  }

  // Each registered queue is that of a thread of its group, each thread's
  // queue is registered, and a blocked event waits for the registered queue.
  ghost predicate Paired(s: State) {
    && (forall t :: t in s.threads ==> s.threads[t].group in s.registered && s.registered[s.threads[t].group] == t)
    && (forall g :: g in s.registered ==> s.registered[g] in s.threads && s.threads[s.registered[g]].group == g)
    && (forall g :: g in s.blocked ==> g in s.registered && s.blocked[g].0 == s.registered[g])
  }

  ghost predicate Bounded(depth: nat, s: State) { forall t :: t in s.threads ==> |s.threads[t].queue| <= depth }

  function Held(phase: Phase): seq<Event> { if phase.Holding? then [phase.event] else [] }

  predicate SameLast(a: seq<Event>, b: seq<Event>) {
    if a == [] then b == [] else b != [] && a[|a| - 1] == b[|b| - 1]
  }

  // The events of the group that are not passed yet.
  function Left(s: State, g: Group): seq<Event> {
    (if g in s.registered && s.registered[g] in s.threads then Pending(s.threads[s.registered[g]]) else [])
    + if g in s.blocked then [s.blocked[g].1] else []
  }

  function Pending(thread: Thread): seq<Event> { Held(thread.phase) + thread.queue }

  predicate Holds(s: State, g: Group) {
    g in s.registered && s.registered[g] in s.threads && s.threads[s.registered[g]].phase.Holding?
  }

  // Every event is accounted for, in order of arrival; unless the group's
  // thread holds an event, the last one passed was handled.
  ghost predicate Accounted(s: State, g: Group) {
    var h := Of(s, g);
    && InOrder(h.handled, h.passed)
    && h.arrived == h.passed + Left(s, g)
    && (!Holds(s, g) ==> SameLast(h.handled, h.passed))
  }

  // Nothing changes for the group.
  ghost predicate Same(s: State, s': State, g: Group) {
    Of(s', g) == Of(s, g) && Left(s', g) == Left(s, g) && Holds(s', g) == Holds(s, g)
  }

  lemma ArrivePaired(depth: nat, s: State, g: Group, e: Event, t: ThreadId, s': State)
    requires depth > 0 && Paired(s) && Bounded(depth, s) && Arrives(depth, s, g, e, t, s')
    ensures Paired(s') && Bounded(depth, s')
  {
  }

  lemma ArriveMoves(depth: nat, s: State, g: Group, e: Event, t: ThreadId, s': State)
    requires Paired(s) && Arrives(depth, s, g, e, t, s')
    ensures Left(s', g) == Left(s, g) + [e] && Holds(s', g) == Holds(s, g)
    ensures Of(s', g) == Of(s, g).(arrived := Of(s, g).arrived + [e])
  {
  }

  lemma ArriveElsewhere(depth: nat, s: State, g: Group, e: Event, t: ThreadId, s': State, h: Group)
    requires Paired(s) && Arrives(depth, s, g, e, t, s') && h != g
    ensures Same(s, s', h)
  {
  }

  lemma PutMoves(depth: nat, s: State, g: Group, s': State)
    requires Paired(s) && Bounded(depth, s) && Puts(depth, s, g, s')
    ensures Paired(s') && Bounded(depth, s')
    ensures Left(s', g) == Left(s, g) && Holds(s', g) == Holds(s, g) && Of(s', g) == Of(s, g)
    ensures forall h :: h != g ==> Same(s, s', h)
  {
  }

  lemma TurnPaired(depth: nat, s: State, t: ThreadId, thread: Thread, passed: seq<Event>, handled: seq<Event>, s': State)
    requires Paired(s) && Bounded(depth, s) && Turns(s, t, thread, passed, handled, s')
    requires thread.group == s.threads[t].group && |thread.queue| <= depth
    ensures Paired(s') && Bounded(depth, s')
  {
  }

  lemma TurnMoves(s: State, t: ThreadId, thread: Thread, passed: seq<Event>, handled: seq<Event>, s': State)
    requires Paired(s) && Turns(s, t, thread, passed, handled, s')
    requires thread.group == s.threads[t].group && Pending(s.threads[t]) == passed + Pending(thread)
    ensures var g := thread.group;
            var h := Of(s, g);
            && Left(s, g) == passed + Left(s', g) && (Holds(s', g) <==> thread.phase.Holding?)
            && (Holds(s, g) <==> s.threads[t].phase.Holding?)
            && Of(s', g) == History(h.arrived, h.passed + passed, h.handled + handled)
  {
    hide Pending;
  }

  lemma TurnElsewhere(s: State, t: ThreadId, thread: Thread, passed: seq<Event>, handled: seq<Event>, s': State, h: Group)
    requires Paired(s) && Turns(s, t, thread, passed, handled, s') && thread.group == s.threads[t].group != h
    ensures Same(s, s', h)
  {
  }

  lemma ExitMoves(depth: nat, s: State, t: ThreadId, s': State)
    requires Paired(s) && Bounded(depth, s) && Exits(s, t, s')
    ensures Paired(s') && Bounded(depth, s') && forall h :: Same(s, s', h)
  {
  }

  // One more event passed, handled or not.
  lemma OnePassed(h: History, e: Event, handled: seq<Event>)
    requires InOrder(h.handled, h.passed) && (handled == [] || handled == [e])
    ensures InOrder(h.handled + handled, h.passed + [e]) && (handled == [e] ==> SameLast(h.handled + handled, h.passed + [e]))
  {
    InOrderSkip(h.handled, h.passed, e);
    InOrderBoth(h.handled, h.passed, e);
    assert h.handled + [] == h.handled;
  }

  // The group's events, before and after a step that passes and handles some.
  lemma MovesAccounted(s: State, s': State, g: Group, arrived: seq<Event>, passed: seq<Event>, handled: seq<Event>)
    requires Accounted(s, g) && Left(s, g) + arrived == passed + Left(s', g)
    requires Of(s', g) == History(Of(s, g).arrived + arrived, Of(s, g).passed + passed, Of(s, g).handled + handled)
    requires passed == handled == [] || (|passed| == 1 && handled == passed && !Holds(s', g)) || (|passed| == 1 && handled == [] && Holds(s', g))
    requires passed == [] ==> (Holds(s, g) ==> Holds(s', g))
    ensures Accounted(s', g)
  {
    hide InOrder, SameLast, Of, Left, Holds;
    var h := Of(s, g);
    assert h.arrived + arrived == h.passed + passed + Left(s', g) by { Regroup(h.passed, Left(s, g), arrived, passed, Left(s', g)); }
    if passed == [] {
      assert h.passed + [] == h.passed && h.handled + [] == h.handled;
    } else {
      assert passed == [passed[0]];
      OnePassed(h, passed[0], handled);
    }
  }

  lemma Regroup(done: seq<Event>, left: seq<Event>, more: seq<Event>, next: seq<Event>, left': seq<Event>)
    requires left + more == next + left'
    ensures done + left + more == done + next + left'
  {
    assert done + left + more == done + (left + more);
    assert done + next + left' == done + (next + left');
  }

  lemma StepPaired(depth: nat, s: State, step: Step, s': State)
    requires depth > 0 && Paired(s) && Bounded(depth, s) && Next(depth, s, step, s')
    ensures Paired(s') && Bounded(depth, s')
  {
    hide Paired, Turns, Arrives, Puts, Exits, Of;
    match step
    case Arrive(g, e, t) => ArrivePaired(depth, s, g, e, t, s');
    case Put(g) => PutMoves(depth, s, g, s');
    case Get(t) => TurnPaired(depth, s, t, Taken(s.threads[t]), [], [], s');
    case Skip(t) => TurnPaired(depth, s, t, Taken(s.threads[t]), [s.threads[t].phase.event], [], s');
    case Handle(t) =>
      var e := s.threads[t].phase.event;
      TurnPaired(depth, s, t, s.threads[t].(phase := Handling(e)), [e], [e], s');
    case Return(t) => TurnPaired(depth, s, t, s.threads[t].(phase := Waiting), [], [], s');
    case Exit(t) => ExitMoves(depth, s, t, s');
  }

  lemma TurnAccounted(s: State, t: ThreadId, thread: Thread, passed: seq<Event>, handled: seq<Event>, s': State, g: Group)
    requires Paired(s) && Accounted(s, g) && Turns(s, t, thread, passed, handled, s')
    requires thread.group == s.threads[t].group && Pending(s.threads[t]) == passed + Pending(thread)
    requires passed == handled == [] || (|passed| == 1 && handled == passed && !thread.phase.Holding?)
          || (|passed| == 1 && handled == [] && thread.phase.Holding?)
    requires passed == [] ==> (s.threads[t].phase.Holding? ==> thread.phase.Holding?)
    ensures Accounted(s', g)
  {
    if g == thread.group {
      TurnMoves(s, t, thread, passed, handled, s');
      hide Accounted, Paired, Left, Holds, Of, Turns, Pending;
      assert Of(s, g).arrived + [] == Of(s, g).arrived && Left(s, g) + [] == Left(s, g);
      MovesAccounted(s, s', g, [], passed, handled);
    } else {
      TurnElsewhere(s, t, thread, passed, handled, s', g);
    }
  }

  lemma ArriveAccounted(depth: nat, s: State, g: Group, e: Event, t: ThreadId, s': State, h: Group)
    requires Paired(s) && Accounted(s, h) && Arrives(depth, s, g, e, t, s')
    ensures Accounted(s', h)
  {
    if g == h {
      ArriveMoves(depth, s, g, e, t, s');
      hide Accounted, Paired, Left, Holds, Of, Arrives;
      assert Of(s, g).passed + [] == Of(s, g).passed && Of(s, g).handled + [] == Of(s, g).handled && [] + Left(s', g) == Left(s', g);
      MovesAccounted(s, s', g, [e], [], []);
    } else {
      ArriveElsewhere(depth, s, g, e, t, s', h);
    }
  }

  lemma StepAccounted(depth: nat, s: State, step: Step, s': State, g: Group)
    requires Paired(s) && Bounded(depth, s) && Accounted(s, g) && Next(depth, s, step, s')
    ensures Accounted(s', g)
  {
    hide Paired, Turns, Arrives, Puts, Exits, Of, Left, Holds, InOrder, SameLast;
    match step
    case Arrive(h, e, t) => ArriveAccounted(depth, s, h, e, t, s', g);
    case Put(h) => PutMoves(depth, s, h, s'); assert Same(s, s', g);
    case Get(t) => TakeFirst(s.threads[t]); TurnAccounted(s, t, Taken(s.threads[t]), [], [], s', g);
    case Skip(t) => TakeFirst(s.threads[t]); TurnAccounted(s, t, Taken(s.threads[t]), [s.threads[t].phase.event], [], s', g);
    case Handle(t) =>
      var e := s.threads[t].phase.event;
      TurnAccounted(s, t, s.threads[t].(phase := Handling(e)), [e], [e], s', g);
    case Return(t) => TurnAccounted(s, t, s.threads[t].(phase := Waiting), [], [], s', g);
    case Exit(t) => ExitMoves(depth, s, t, s'); assert Same(s, s', g);
  }

  lemma TakeFirst(thread: Thread)
    requires thread.queue != []
    ensures Pending(thread) == Held(thread.phase) + Pending(Taken(thread))
  {
    assert thread.queue == [thread.queue[0]] + thread.queue[1..];
  }

  ghost predicate Run(depth: nat, run: seq<State>, steps: seq<Step>) {
    && |run| == |steps| + 1 && Init(run[0])
    && forall i :: 0 <= i < |steps| ==> Next(depth, run[i], steps[i], run[i + 1])
  }

  lemma {:induction false} RunInvariant(depth: nat, run: seq<State>, steps: seq<Step>, n: nat)
    requires depth > 0 && Run(depth, run, steps) && n < |run|
    ensures Paired(run[n]) && Bounded(depth, run[n]) && forall g :: Accounted(run[n], g)
  {
    if n > 0 {
      hide Next, Paired, Accounted, Bounded;
      RunInvariant(depth, run, steps, n - 1);
      StepPaired(depth, run[n - 1], steps[n - 1], run[n]);
      forall g ensures Accounted(run[n], g) { StepAccounted(depth, run[n - 1], steps[n - 1], run[n], g); }
    }
  }

  // In every interleaving each group has at most one thread, present exactly
  // while its queue is registered, and no queue is over its depth.
  lemma OneThreadPerGroup(depth: nat, run: seq<State>, steps: seq<Step>, n: nat)
    requires depth > 0 && Run(depth, run, steps) && n < |run|
    ensures forall t, u :: t in run[n].threads && u in run[n].threads && run[n].threads[t].group == run[n].threads[u].group ==> t == u
    ensures forall g :: g in run[n].registered <==> exists t :: t in run[n].threads && run[n].threads[t].group == g
    ensures forall t :: t in run[n].threads ==> |run[n].threads[t].queue| <= depth
  {
    RunInvariant(depth, run, steps, n);
  }

  // The handled events are among the arrived ones, in order; and when the
  // group is idle its last event was handled last.
  lemma HandledInOrder(depth: nat, run: seq<State>, steps: seq<Step>, n: nat, g: Group) returns (at: seq<nat>)
    requires depth > 0 && Run(depth, run, steps) && n < |run|
    ensures var History(arrived, _, handled) := Of(run[n], g);
            && |at| == |handled|
            && (forall i :: 0 <= i < |at| ==> at[i] < |arrived| && arrived[at[i]] == handled[i])
            && (forall i, j :: 0 <= i < j < |at| ==> at[i] < at[j])
            && (g !in run[n].registered ==> SameLast(handled, arrived))
  {
    RunInvariant(depth, run, steps, n);
    assert Accounted(run[n], g);
    at := InOrderPositions(Of(run[n], g).handled, Of(run[n], g).passed);
  }

  // The handler is called with the newest event of the group: all others have
  // passed, but for one of a caller still blocked. No other step handles any.
  lemma HandlesNewest(depth: nat, run: seq<State>, steps: seq<Step>, n: nat, g: Group)
    requires depth > 0 && Run(depth, run, steps) && n < |steps|
    ensures var was, now := Of(run[n], g), Of(run[n + 1], g);
            if steps[n].Handle? && run[n].threads[steps[n].t].group == g then
              var e := run[n].threads[steps[n].t].phase.event;
              && was.arrived == was.passed + [e] + (if g in run[n].blocked then [run[n].blocked[g].1] else [])
              && now == History(was.arrived, was.passed + [e], was.handled + [e])
            else now.handled == was.handled
  {
    hide Next, Paired, Accounted, Bounded, Of;
    RunInvariant(depth, run, steps, n);
    StepHandles(depth, run[n], steps[n], run[n + 1], g);
  }

  lemma StepHandles(depth: nat, s: State, step: Step, s': State, g: Group)
    requires Paired(s) && Accounted(s, g) && Next(depth, s, step, s')
    ensures var was, now := Of(s, g), Of(s', g);
            if step.Handle? && s.threads[step.t].group == g then
              var e := s.threads[step.t].phase.event;
              && was.arrived == was.passed + [e] + (if g in s.blocked then [s.blocked[g].1] else [])
              && now == History(was.arrived, was.passed + [e], was.handled + [e])
            else now.handled == was.handled
  {
    hide InOrder, SameLast;
    if step.Handle? && s.threads[step.t].group == g {
      var e := s.threads[step.t].phase.event;
      assert Pending(s.threads[step.t]) == [e];
      assert Of(s, g).passed + ([e] + []) == Of(s, g).passed + [e] + [];
    }
  }

  // ---------- the handler ----------

  // The steps as methods on the handler's dictionary and its threads.
  class Async {
    const depth: nat
    var registered: map<Group, ThreadId>
    var threads: map<ThreadId, Thread>
    var blocked: map<Group, (ThreadId, Event)>
    var started: ThreadId
    ghost var history: map<Group, History>

    ghost function View(): State
      reads this
    {
      State(registered, threads, blocked, history)
    }

    ghost predicate Valid()
      reads this
    {
      depth > 0 && Paired(View()) && Bounded(depth, View()) && (forall g :: Accounted(View(), g)) && forall t :: t in threads ==> t < started
    }

    constructor (depth: nat)
      requires depth > 0
      ensures Valid() && Init(View()) && this.depth == depth
    {
      this.depth := depth;
      registered, threads, blocked, started, history := map[], map[], map[], 0, map[];
    }

    // A watcher delivers an event; the call ends at once unless the queue is full.
    method Call(g: Group, e: Event) returns (done: bool)
      requires Valid() && g !in blocked
      modifies this
      ensures Valid() && Next(depth, old(View()), Arrive(g, e, old(started)), View())
      ensures done <==> g !in blocked
    {
      hide Accounted, Bounded, InOrder, Left, Holds;
      ghost var h := Of(View(), g);
      done := true;
      if g !in registered {
        registered, threads := registered[g := started], threads[started := Thread(g, [e], Waiting)];
      } else {
        var t := registered[g];
        if |threads[t].queue| < depth {
          threads := threads[t := threads[t].(queue := threads[t].queue + [e])];
        } else {
          done, blocked := false, blocked[g := (t, e)];
        }
      }
      history := history[g := h.(arrived := h.arrived + [e])];
      StepKeeps(depth, old(View()), Arrive(g, e, old(started)), View());
      hide Paired, Bounded, Accounted;
      started := started + 1;
    }

    lemma StepKeeps(depth: nat, s: State, step: Step, s': State)
      requires depth > 0 && Paired(s) && Bounded(depth, s) && (forall g :: Accounted(s, g)) && Next(depth, s, step, s')
      ensures Paired(s') && Bounded(depth, s') && forall g :: Accounted(s', g)
    {
      hide Paired, Bounded, Accounted, Next;
      StepPaired(depth, s, step, s');
      forall g ensures Accounted(s', g) { StepAccounted(depth, s, step, s', g); }
    }

    // The thread takes the next event: the first one it waits for, or a newer
    // one than it holds. False when the queue is empty.
    method GetEvent(t: ThreadId) returns (got: bool)
      requires Valid() && t in threads && !threads[t].phase.Handling?
      modifies this`threads, this`history
      ensures Valid() && got == (old(threads[t].queue) != [])
      ensures if got then Next(depth, old(View()), if old(threads[t].phase).Waiting? then Get(t) else Skip(t), View()) else View() == old(View())
    {
      var thread := threads[t];
      if thread.queue == [] { return false; }
      ghost var h := Of(View(), thread.group);
      ghost var step := if thread.phase.Waiting? then Get(t) else Skip(t);
      threads := threads[t := Taken(thread)];
      history := history[thread.group := History(h.arrived, h.passed + Held(thread.phase), h.handled + [])];
      StepKeeps(depth, old(View()), step, View());
      return true;
    }

    // The thread calls the handler with the newest event, and comes back.
    method CallHandler(t: ThreadId)
      requires Valid() && t in threads && threads[t].phase.Holding? && threads[t].queue == []
      modifies this`threads, this`history
      ensures Valid() && Next(depth, old(View()), Handle(t), View())
    {
      var thread := threads[t];
      ghost var h := Of(View(), thread.group);
      threads := threads[t := thread.(phase := Handling(thread.phase.event))];
      history := history[thread.group := History(h.arrived, h.passed + [thread.phase.event], h.handled + [thread.phase.event])];
      StepKeeps(depth, old(View()), Handle(t), View());
    }

    // The thread stops after an empty grace period, and its queue goes with it.
    method Done(t: ThreadId)
      requires Valid() && t in threads && threads[t].phase.Waiting? && threads[t].queue == [] && threads[t].group !in blocked
      modifies this`registered, this`threads
      ensures Valid() && Next(depth, old(View()), Exit(t), View())
      ensures old(threads[t].group) !in registered
    {
      registered, threads := registered - {threads[t].group}, threads - {t};
      StepKeeps(depth, old(View()), Exit(t), View());
    }
  }
}
