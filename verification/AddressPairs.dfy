/**
 The allowed address pairs of a node's port, shared by all its MACVLAN pods.
 A client reads the port, changes the list, and writes it back guarded by the
 revision number it read; clients interleave freely.
 */
module AddressPairs {
  type Ip = string
  type Mac = string

  datatype Pair = Pair(ip: Ip, mac: Mac)

  function PairsOf(ips: set<Ip>, mac: Mac): set<Pair> { set ip | ip in ips :: Pair(ip, mac) }

  lemma PairsOfAdd(ips: set<Ip>, mac: Mac, ip: Ip)
    requires ip !in ips
    ensures PairsOf(ips + {ip}, mac) == PairsOf(ips, mac) + {Pair(ip, mac)} && Pair(ip, mac) !in PairsOf(ips, mac)
  {
    assert Pair(ip, mac) in PairsOf(ips + {ip}, mac);
  }

  // ---------- the changes to the list ----------

  // The list a request writes: the old pairs and one new pair for each address.
  predicate Extended(was: seq<Pair>, now: seq<Pair>, ips: set<Ip>, mac: Mac) {
    was <= now && multiset(now) == multiset(was) + multiset(PairsOf(ips, mac))
  }

  // The list a release writes: of each of its pairs, one fewer if it was there.
  predicate Reduced(was: seq<Pair>, now: seq<Pair>, ips: set<Ip>, mac: Mac) {
    multiset(now) == multiset(was) - multiset(PairsOf(ips, mac))
  }

  predicate SomeListed(pairs: seq<Pair>, ips: set<Ip>, mac: Mac) { exists ip :: ip in ips && Pair(ip, mac) in pairs }

  // A pair to add is there already, with the very MAC string of the request.
  predicate AlreadyPresent(pairs: seq<Pair>, ips: set<Ip>, mac: Mac, identical: set<Pair>) {
    exists i :: 0 <= i < |pairs| && pairs[i].ip in ips && pairs[i].mac == mac && pairs[i] in identical
  }

  // Without an address there is nothing to add, which is an error; so is a
  // pair that is there already, if the strings compared are identical.
  method AddToAllowedAddressPairs(pairs: seq<Pair>, ips: set<Ip>, mac: Mac, identical: set<Pair>) returns (ok: bool, now: seq<Pair>)
    ensures ok <==> ips != {} && !AlreadyPresent(pairs, ips, mac, identical)
    ensures ok ==> Extended(pairs, now, ips, mac)
  {
    now := pairs;
    if ips == {} { return false, now; }
    for i := 0 to |pairs|
      invariant !AlreadyPresent(pairs[..i], ips, mac, identical)
    {
      if pairs[i].ip in ips && pairs[i].mac == mac && pairs[i] in identical { return false, now; }
    }
    assert pairs[..|pairs|] == pairs;
    now := Extend(pairs, ips, mac);
    ok := true;
  }

  method Extend(pairs: seq<Pair>, ips: set<Ip>, mac: Mac) returns (now: seq<Pair>)
    ensures Extended(pairs, now, ips, mac)
  {
    now := pairs;
    var todo := ips;
    assert PairsOf(ips - todo, mac) == {};
    while todo != {}
      invariant todo <= ips && pairs <= now
      invariant multiset(now) == multiset(pairs) + multiset(PairsOf(ips - todo, mac))
      decreases |todo|
    {
      var ip :| ip in todo;
      PairsOfAdd(ips - todo, mac, ip);
      assert ips - (todo - {ip}) == (ips - todo) + {ip};
      now, todo := now + [Pair(ip, mac)], todo - {ip};
    }
    assert ips - todo == ips;
  }

  // list.remove: the first occurrence goes.
  method Remove(pairs: seq<Pair>, pair: Pair) returns (now: seq<Pair>, found: bool)
    ensures found == (pair in pairs) && multiset(now) == multiset(pairs) - multiset{pair} && (!found ==> now == pairs)
  {
    for i := 0 to |pairs|
      invariant pair !in pairs[..i]
    {
      if pairs[i] == pair {
        assert pairs == pairs[..i] + [pair] + pairs[i + 1..];
        return pairs[..i] + pairs[i + 1..], true;
      }
    }
    assert pairs == pairs[..|pairs|];
    return pairs, false;
  }

  method RemoveFromAllowedAddressPairs(pairs: seq<Pair>, ips: set<Ip>, mac: Mac) returns (ok: bool, now: seq<Pair>, updated: bool)
    ensures ok <==> ips != {}
    ensures Reduced(pairs, now, ips, mac) && updated == SomeListed(pairs, ips, mac)
    ensures !updated ==> now == pairs
  {
    ok, now, updated := ips != {}, pairs, false;
    var todo := ips;
    NoneListed(pairs, mac);
    assert ips - todo == {};
    hide RemovedSoFar, Reduced;
    while todo != {}
      invariant todo <= ips && RemovedSoFar(pairs, now, updated, ips - todo, mac)
      decreases |todo|
    {
      var ip :| ip in todo;
      assert ips - (todo - {ip}) == (ips - todo) + {ip};
      ghost var was := now;
      var found;
      now, found := Remove(now, Pair(ip, mac));
      RemoveOne(pairs, was, now, updated, found, ips - todo, mac, ip);
      updated, todo := updated || found, todo - {ip};
    }
    assert ips - todo == ips;
    AllRemoved(pairs, now, updated, ips, mac);
  }

  predicate RemovedSoFar(pairs: seq<Pair>, now: seq<Pair>, updated: bool, done: set<Ip>, mac: Mac) {
    Reduced(pairs, now, done, mac) && updated == SomeListed(pairs, done, mac) && (!updated ==> now == pairs)
  }

  lemma NoneListed(pairs: seq<Pair>, mac: Mac)
    ensures RemovedSoFar(pairs, pairs, false, {}, mac)
  {
    assert PairsOf({}, mac) == {};
  }

  lemma AllRemoved(pairs: seq<Pair>, now: seq<Pair>, updated: bool, ips: set<Ip>, mac: Mac)
    requires RemovedSoFar(pairs, now, updated, ips, mac)
    ensures Reduced(pairs, now, ips, mac) && updated == SomeListed(pairs, ips, mac) && (!updated ==> now == pairs)
  {
  }

  lemma RemoveOne(pairs: seq<Pair>, was: seq<Pair>, now: seq<Pair>, updated: bool, found: bool, done: set<Ip>, mac: Mac, ip: Ip)
    requires RemovedSoFar(pairs, was, updated, done, mac) && ip !in done
    requires found == (Pair(ip, mac) in was) && multiset(now) == multiset(was) - multiset{Pair(ip, mac)} && (!found ==> now == was)
    ensures RemovedSoFar(pairs, now, updated || found, done + {ip}, mac)
  {
    hide PairsOf, SomeListed;
    PairsOfAdd(done, mac, ip);
    ListedAdd(pairs, done, mac, ip);
    var pair := Pair(ip, mac);
    assert pair in multiset(was) <==> pair in multiset(pairs);
    assert multiset(was) - multiset{pair} == multiset(pairs) - multiset(PairsOf(done, mac) + {pair});
  }

  lemma ListedAdd(pairs: seq<Pair>, ips: set<Ip>, mac: Mac, ip: Ip)
    ensures SomeListed(pairs, ips + {ip}, mac) <==> SomeListed(pairs, ips, mac) || Pair(ip, mac) in pairs
  {
    if SomeListed(pairs, ips, mac) {
      var i :| i in ips && Pair(i, mac) in pairs;
      assert i in ips + {ip};
    }
    assert ip in ips + {ip};
  }

  // ---------- the interleavings ----------

  datatype Port = Port(pairs: seq<Pair>, revision: nat)

  datatype Kind = Request | Release

  // A client's call: what it adds or removes, the attempts it has left, and
  // what it read of the port, if it did.
  datatype Phase = Idle | HasRead(port: Port) | Done | Failed

  datatype Client = Client(kind: Kind, ips: set<Ip>, mac: Mac, attempts: nat, left: nat, phase: Phase)

  type ClientId = nat

  datatype State = State(port: Port, clients: map<ClientId, Client>)

  datatype Step =
    | Start(c: ClientId, kind: Kind, ips: set<Ip>, mac: Mac, attempts: nat)
    | Read(c: ClientId)
    | Try(c: ClientId, pairs: seq<Pair>)
    | Break(c: ClientId)
    | GiveUp(c: ClientId)

  function Now(s: State, c: ClientId, left: nat, phase: Phase): map<ClientId, Client>
    requires c in s.clients
  {
    s.clients[c := s.clients[c].(left := left, phase := phase)]
  }

  predicate Reading(s: State, c: ClientId) { c in s.clients && s.clients[c].phase.HasRead? && s.clients[c].left > 0 }

  // A failed attempt: the client reads again, or fails.
  function Missed(s: State, c: ClientId): State
    requires Reading(s, c)
  {
    var left := s.clients[c].left - 1;
    State(s.port, Now(s, c, left, if left == 0 then Failed else Idle))
  }

  // The list that the client would write over what it read.
  predicate Changes(client: Client, was: seq<Pair>, now: seq<Pair>) {
    if client.kind.Request? then Extended(was, now, client.ips, client.mac) else Reduced(was, now, client.ips, client.mac)
  }

  // A release that finds none of its pairs writes nothing.
  predicate NoChange(client: Client, was: seq<Pair>) { client.kind.Release? && !SomeListed(was, client.ips, client.mac) }

  predicate Writes(s: State, step: Step) {
    && step.Try? && Reading(s, step.c) && var read := s.clients[step.c].phase.port;
       !NoChange(s.clients[step.c], read.pairs) && read.revision == s.port.revision
  }

  ghost predicate Next(s: State, step: Step, s': State) {
    match step
    case Start(c, kind, ips, mac, attempts) =>
      c !in s.clients && attempts > 0 && s' == s.(clients := s.clients[c := Client(kind, ips, mac, attempts, attempts, Idle)])
    case Read(c) => c in s.clients && s.clients[c].phase.Idle? && s' == s.(clients := Now(s, c, s.clients[c].left, HasRead(s.port)))
    case Try(c, pairs) =>
      && Reading(s, c) && s.clients[c].ips != {} && Changes(s.clients[c], s.clients[c].phase.port.pairs, pairs)
      && var left := s.clients[c].left - 1;
         s' == if NoChange(s.clients[c], s.clients[c].phase.port.pairs) then s.(clients := Now(s, c, left, Done))
               else if s.clients[c].phase.port.revision == s.port.revision then State(Port(pairs, s.port.revision + 1), Now(s, c, left, Done))
               else Missed(s, c)
    // The update fails for another reason.
    case Break(c) => Reading(s, c) && s' == Missed(s, c)
    // The call ends with an error, such as a pair already there.
    case GiveUp(c) => c in s.clients && s.clients[c].phase != Done && s' == s.(clients := Now(s, c, s.clients[c].left, Failed))
  }

  // An attempt of a client ends its call if it has nothing to remove, or writes
  // because the port is still at the revision read; else the call goes on as
  // long as it has attempts left, and otherwise fails.
  lemma TryDecides(s: State, c: ClientId, pairs: seq<Pair>, s': State)
    requires Next(s, Try(c, pairs), s')
    ensures s.clients[c].phase.HasRead? && s.clients[c].left > 0 && s.clients[c].ips != {}
    ensures var at, read := s.clients[c], s.clients[c].phase.port;
            var nothing := at.kind.Release? && forall ip :: ip in at.ips ==> Pair(ip, at.mac) !in read.pairs;
            var writes := !nothing && read.revision == s.port.revision;
            && s'.port == (if writes then Port(pairs, s.port.revision + 1) else s.port)
            && s'.clients[c] == at.(left := at.left - 1, phase := if nothing || writes then Done else if at.left > 1 then Idle else Failed)
            && s'.clients - {c} == s.clients - {c}
  {
    assert s'.clients - {c} == s.clients - {c};
  }

  // An update that breaks costs an attempt, and changes nothing else.
  lemma BreakDecides(s: State, c: ClientId, s': State)
    requires Next(s, Break(c), s')
    ensures s'.port == s.port && s.clients[c].left > 0
    ensures s'.clients[c] == s.clients[c].(left := s.clients[c].left - 1, phase := if s.clients[c].left > 1 then Idle else Failed)
    ensures s'.clients - {c} == s.clients - {c}
  {
    assert s'.clients - {c} == s.clients - {c};
  }

  // What a client read at the port's current revision is what the port holds.
  ghost predicate Fresh(s: State) {
    forall c :: c in s.clients && s.clients[c].phase.HasRead? ==>
      && s.clients[c].phase.port.revision <= s.port.revision
      && (s.clients[c].phase.port.revision == s.port.revision ==> s.clients[c].phase.port.pairs == s.port.pairs)
  }

  ghost predicate Run(run: seq<State>, steps: seq<Step>) {
    && |run| == |steps| + 1 && run[0].clients == map[]
    && forall i :: 0 <= i < |steps| ==> Next(run[i], steps[i], run[i + 1])
  }

  lemma {:induction false} RunFresh(run: seq<State>, steps: seq<Step>, n: nat)
    requires Run(run, steps) && n < |run|
    ensures Fresh(run[n])
  {
    if n > 0 {
      RunFresh(run, steps, n - 1);
      assert Next(run[n - 1], steps[n - 1], run[n]);
    }
  }

  ghost function PairsOfClient(s: State, c: ClientId): multiset<Pair>
    requires c in s.clients
  {
    multiset(PairsOf(s.clients[c].ips, s.clients[c].mac))
  }

  ghost function AddedBy(s: State, step: Step): multiset<Pair> {
    if Writes(s, step) && s.clients[step.c].kind.Request? then PairsOfClient(s, step.c) else multiset{}
  }

  ghost function RemovedBy(s: State, step: Step): multiset<Pair> {
    if Writes(s, step) && s.clients[step.c].kind.Release? then multiset(s.port.pairs) * PairsOfClient(s, step.c) else multiset{}
  }

  // The pairs that successful requests added, each request's once.
  ghost function Added(run: seq<State>, steps: seq<Step>, n: nat): multiset<Pair>
    requires |run| == |steps| + 1 && n <= |steps|
  {
    if n == 0 then multiset{} else Added(run, steps, n - 1) + AddedBy(run[n - 1], steps[n - 1])
  }

  // The pairs that successful releases removed: those of theirs the port held.
  ghost function Removed(run: seq<State>, steps: seq<Step>, n: nat): multiset<Pair>
    requires |run| == |steps| + 1 && n <= |steps|
  {
    if n == 0 then multiset{} else Removed(run, steps, n - 1) + RemovedBy(run[n - 1], steps[n - 1])
  }

  lemma StepConserves(s: State, step: Step, s': State)
    requires Fresh(s) && Next(s, step, s')
    ensures multiset(s'.port.pairs) + RemovedBy(s, step) == multiset(s.port.pairs) + AddedBy(s, step)
  {
    if Writes(s, step) {
      hide PairsOf, SomeListed;
      assert Changes(s.clients[step.c], s.port.pairs, s'.port.pairs);
      var pairs, changed := multiset(s.port.pairs), PairsOfClient(s, step.c);
      assert pairs - changed + pairs * changed == pairs;
    } else {
      assert s'.port == s.port;
    }
  }

  // No client's change is ever lost: the port holds its first pairs, and all
  // those added, less those removed.
  lemma {:induction false} PairsConserved(run: seq<State>, steps: seq<Step>, n: nat)
    requires Run(run, steps) && n <= |steps|
    ensures |run| == |steps| + 1
    ensures multiset(run[n].port.pairs) + Removed(run, steps, n) == multiset(run[0].port.pairs) + Added(run, steps, n)
  {
    if n > 0 {
      hide Next, AddedBy, RemovedBy, Fresh, Run;
      PairsConserved(run, steps, n - 1);
      LastConserves(run, steps, n);
      Telescope(multiset(run[0].port.pairs), multiset(run[n - 1].port.pairs), multiset(run[n].port.pairs),
                Added(run, steps, n - 1), Removed(run, steps, n - 1), AddedBy(run[n - 1], steps[n - 1]), RemovedBy(run[n - 1], steps[n - 1]));
    }
  }

  lemma LastConserves(run: seq<State>, steps: seq<Step>, n: nat)
    requires Run(run, steps) && 0 < n <= |steps|
    ensures |run| == |steps| + 1
    ensures multiset(run[n].port.pairs) + RemovedBy(run[n - 1], steps[n - 1]) == multiset(run[n - 1].port.pairs) + AddedBy(run[n - 1], steps[n - 1])
  {
    hide Next, AddedBy, RemovedBy, Fresh;
    RunFresh(run, steps, n - 1);
    StepConserves(run[n - 1], steps[n - 1], run[n]);
  }

  lemma Telescope(first: multiset<Pair>, before: multiset<Pair>, after: multiset<Pair>, added: multiset<Pair>, removed: multiset<Pair>,
                  a: multiset<Pair>, r: multiset<Pair>)
    requires before + removed == first + added && after + r == before + a
    ensures after + (removed + r) == first + (added + a)
  {
    assert after + (removed + r) == (after + r) + removed;
    assert (before + a) + removed == (before + removed) + a;
    assert (first + added) + a == first + (added + a);
  }

  // A call is over once it wrote, so no call writes twice.
  lemma {:induction false} WritesOnce(run: seq<State>, steps: seq<Step>, i: nat, n: nat)
    requires Run(run, steps) && i < n <= |steps| && Writes(run[i], steps[i])
    ensures steps[i].c in run[n].clients && run[n].clients[steps[i].c].phase.Done?
    ensures n < |steps| ==> !(Writes(run[n], steps[n]) && steps[n].c == steps[i].c)
  {
    if n > i + 1 { WritesOnce(run, steps, i, n - 1); }
    assert Next(run[n - 1], steps[n - 1], run[n]);
  }

  // A request that is done has written, and a release that is done has
  // written or found none of its pairs in what it read.
  lemma {:induction false} DoneWrote(run: seq<State>, steps: seq<Step>, n: nat, c: ClientId) returns (i: nat)
    requires Run(run, steps) && n < |run| && c in run[n].clients && run[n].clients[c].phase.Done?
    ensures i < n && steps[i].Try? && steps[i].c == c && Reading(run[i], c)
    ensures var client, now := run[i].clients[c], run[n].clients[c];
            && client.kind == now.kind && client.ips == now.ips && client.mac == now.mac
            && (Writes(run[i], steps[i]) || NoChange(client, client.phase.port.pairs))
    ensures run[n].clients[c].kind.Request? ==> Writes(run[i], steps[i])
  {
    assert Next(run[n - 1], steps[n - 1], run[n]);
    if c in run[n - 1].clients && run[n - 1].clients[c].phase.Done? {
      i := DoneWrote(run, steps, n - 1, c);
    } else {
      i := n - 1;
    }
  }

  predicate DoneFor(s: State, c: ClientId, kind: Kind, q: Pair) {
    IsDone(s, c) && s.clients[c].kind == kind && q in PairsOf(s.clients[c].ips, s.clients[c].mac)
  }

  // The requests, or the releases, of a pair that are done.
  ghost function DoneSet(s: State, kind: Kind, q: Pair): set<ClientId> { set c | c in s.clients && DoneFor(s, c, kind, q) }

  predicate IsDone(s: State, c: ClientId) { c in s.clients && s.clients[c].phase.Done? }

  // The attempt ends its call well: it writes, or has nothing to write.
  predicate Finishes(s: State, step: Step) {
    step.Try? && Reading(s, step.c) && (Writes(s, step) || NoChange(s.clients[step.c], s.clients[step.c].phase.port.pairs))
  }

  lemma StepFinishes(s: State, step: Step, s': State, c: ClientId)
    requires Next(s, step, s')
    ensures IsDone(s', c) <==> IsDone(s, c) || (Finishes(s, step) && c == step.c)
    ensures IsDone(s', c) ==> c in s.clients && s'.clients[c].kind == s.clients[c].kind
                              && s'.clients[c].ips == s.clients[c].ips && s'.clients[c].mac == s.clients[c].mac
    ensures Finishes(s, step) ==> !IsDone(s, step.c)
  {
    hide Extended, Reduced, SomeListed;
  }

  // The client that the step finishes for, if it is of the kind and the pair.
  ghost function NewlyDone(s: State, step: Step, kind: Kind, q: Pair): set<ClientId> {
    if Finishes(s, step) && s.clients[step.c].kind == kind && q in PairsOf(s.clients[step.c].ips, s.clients[step.c].mac) then {step.c} else {}
  }

  lemma StepDoneFor(s: State, step: Step, s': State, c: ClientId, kind: Kind, q: Pair)
    requires Next(s, step, s')
    ensures DoneFor(s', c, kind, q) <==> DoneFor(s, c, kind, q) || c in NewlyDone(s, step, kind, q)
    ensures c in NewlyDone(s, step, kind, q) ==> !DoneFor(s, c, kind, q)
  {
    hide Next, PairsOf, Writes, NoChange;
    StepFinishes(s, step, s', c);
    if c != step.c && Finishes(s, step) { StepFinishes(s, step, s', step.c); }
  }

  lemma StepDoneSet(s: State, step: Step, s': State, kind: Kind, q: Pair)
    requires Next(s, step, s')
    ensures DoneSet(s', kind, q) == DoneSet(s, kind, q) + NewlyDone(s, step, kind, q)
    ensures |DoneSet(s', kind, q)| == |DoneSet(s, kind, q)| + |NewlyDone(s, step, kind, q)|
  {
    hide Next, DoneFor, NewlyDone;
    DoneAreClients(s', kind, q);
    DoneAreClients(s, kind, q);
    forall c
      ensures DoneFor(s', c, kind, q) <==> DoneFor(s, c, kind, q) || c in NewlyDone(s, step, kind, q)
      ensures c in NewlyDone(s, step, kind, q) ==> !DoneFor(s, c, kind, q)
    {
      StepDoneFor(s, step, s', c, kind, q);
    }
    assert DoneSet(s, kind, q) !! NewlyDone(s, step, kind, q);
  }

  lemma DoneAreClients(s: State, kind: Kind, q: Pair)
    ensures forall c :: DoneFor(s, c, kind, q) ==> c in s.clients
  {
  }

  lemma StepCounts(s: State, step: Step, s': State, q: Pair)
    requires Next(s, step, s')
    ensures |DoneSet(s', Request, q)| == |DoneSet(s, Request, q)| + AddedBy(s, step)[q]
    ensures |DoneSet(s', Release, q)| >= |DoneSet(s, Release, q)| + RemovedBy(s, step)[q]
  {
    StepDoneSet(s, step, s', Request, q);
    StepDoneSet(s, step, s', Release, q);
    hide DoneSet, PairsOf, Next, NoChange;
    if Finishes(s, step) && s.clients[step.c].kind.Request? { RequestsWrite(s, step); }
  }

  lemma RequestsWrite(s: State, step: Step)
    requires Finishes(s, step) && s.clients[step.c].kind.Request?
    ensures Writes(s, step)
  {
  }

  lemma {:induction false} DoneCounts(run: seq<State>, steps: seq<Step>, n: nat, q: Pair)
    requires Run(run, steps) && n <= |steps|
    ensures |run| == |steps| + 1
    ensures Added(run, steps, n)[q] == |DoneSet(run[n], Request, q)| && Removed(run, steps, n)[q] <= |DoneSet(run[n], Release, q)|
  {
    if n > 0 {
      hide Next, AddedBy, RemovedBy, DoneSet;
      DoneCounts(run, steps, n - 1, q);
      StepCounts(run[n - 1], steps[n - 1], run[n], q);
    } else {
      assert DoneSet(run[0], Request, q) == {} && DoneSet(run[0], Release, q) == {};
    }
  }

  // No client's change is lost: of every pair the port holds its first ones
  // and one for each request that is done, less those that releases took out,
  // of which each took one at most.
  lemma DoneClientsConserved(run: seq<State>, steps: seq<Step>, n: nat, q: Pair)
    requires Run(run, steps) && n <= |steps|
    ensures |run| == |steps| + 1 && Removed(run, steps, n)[q] <= |DoneSet(run[n], Release, q)|
    ensures multiset(run[n].port.pairs)[q] + Removed(run, steps, n)[q] == multiset(run[0].port.pairs)[q] + |DoneSet(run[n], Request, q)|
  {
    hide Run, Added, Removed, DoneSet;
    PairsConserved(run, steps, n);
    DoneCounts(run, steps, n, q);
    var left := multiset(run[n].port.pairs) + Removed(run, steps, n);
    var right := multiset(run[0].port.pairs) + Added(run, steps, n);
    assert left[q] == right[q];
  }

  // The attempts of a call: updates tried, and updates that broke.
  ghost function Tries(steps: seq<Step>, n: nat, c: ClientId): nat
    requires n <= |steps|
  {
    if n == 0 then 0 else Tries(steps, n - 1, c) + if (steps[n - 1].Try? || steps[n - 1].Break?) && steps[n - 1].c == c then 1 else 0
  }

  // A try uses up one attempt of its call, and nothing else does.
  lemma LeftNext(s: State, step: Step, s': State, c: ClientId)
    requires Next(s, step, s')
    ensures var tried := (step.Try? || step.Break?) && step.c == c;
            if c in s.clients then
              c in s'.clients && s'.clients[c].attempts == s.clients[c].attempts
              && s'.clients[c].left == s.clients[c].left - if tried then 1 else 0
            else !tried && (c in s'.clients ==> s'.clients[c].left == s'.clients[c].attempts)
  {
    hide Changes, SomeListed;
  }

  // No call tries more often than it is configured to.
  lemma {:induction false} TriesBounded(run: seq<State>, steps: seq<Step>, n: nat, c: ClientId)
    requires Run(run, steps) && n <= |steps|
    ensures if c in run[n].clients then Tries(steps, n, c) + run[n].clients[c].left == run[n].clients[c].attempts else Tries(steps, n, c) == 0
  {
    if n > 0 {
      hide Next;
      TriesBounded(run, steps, n - 1, c);
      LeftNext(run[n - 1], steps[n - 1], run[n], c);
    }
  }

  // A call fails only if it gave up or has no attempts left; until it is over
  // it has some, and can go on.
  lemma {:induction false} FailedIsSpent(run: seq<State>, steps: seq<Step>, n: nat, c: ClientId)
    requires Run(run, steps) && n <= |steps| && c in run[n].clients
    ensures run[n].clients[c].phase.Failed? ==> run[n].clients[c].left == 0 || exists i :: 0 <= i < n && steps[i] == GiveUp(c)
    ensures run[n].clients[c].phase.Idle? || run[n].clients[c].phase.HasRead? ==> run[n].clients[c].left > 0
  {
    if n > 0 {
      if c in run[n - 1].clients { FailedIsSpent(run, steps, n - 1, c); }
      FailsOrGivesUp(run[n - 1], steps[n - 1], run[n], c);
    }
  }

  lemma FailsOrGivesUp(s: State, step: Step, s': State, c: ClientId)
    requires Next(s, step, s') && c in s'.clients
    requires c in s.clients && (s.clients[c].phase.Idle? || s.clients[c].phase.HasRead?) ==> s.clients[c].left > 0
    ensures s'.clients[c].phase.Failed? ==> s'.clients[c].left == 0 || step == GiveUp(c) || (c in s.clients && s.clients[c].phase.Failed?
                                                                                           && s.clients[c].left == s'.clients[c].left)
    ensures s'.clients[c].phase.Idle? || s'.clients[c].phase.HasRead? ==> s'.clients[c].left > 0
  {
    hide Changes, SomeListed;
  }

  lemma CanGoOn(run: seq<State>, steps: seq<Step>, n: nat, c: ClientId) returns (step: Step, s': State)
    requires Run(run, steps) && n <= |steps| && c in run[n].clients
    requires run[n].clients[c].phase.Idle? || run[n].clients[c].phase.HasRead?
    ensures step in {Read(c), Break(c)} && Next(run[n], step, s')
  {
    FailedIsSpent(run, steps, n, c);
    if run[n].clients[c].phase.Idle? {
      step, s' := Read(c), run[n].(clients := Now(run[n], c, run[n].clients[c].left, HasRead(run[n].port)));
    } else {
      step, s' := Break(c), Missed(run[n], c);
    }
  }

  // ---------- one call, with others writing between its read and its write ----------

  datatype Answer = Added | Disturbed | Refused

  class NodePort {
    var port: Port

    constructor (pairs: seq<Pair>)
      ensures port == Port(pairs, 0)
    {
      port := Port(pairs, 0);
    }

    // An update is refused unless the port is still at the revision given.
    method Update(pairs: seq<Pair>, ifMatch: nat) returns (ok: bool)
      modifies this
      ensures ok == (ifMatch == old(port.revision))
      ensures port == if ok then Port(pairs, old(port.revision) + 1) else old(port)
    {
      ok := ifMatch == port.revision;
      if ok { port := Port(pairs, port.revision + 1); }
    }

    // Others' updates between the read and the write of an attempt.
    method Others(writes: seq<seq<Pair>>)
      modifies this
      ensures port == if writes == [] then old(port) else Port(writes[|writes| - 1], old(port.revision) + |writes|)
    {
      for i := 0 to |writes|
        invariant port == if i == 0 then old(port) else Port(writes[i - 1], old(port.revision) + i)
      {
        port := Port(writes[i], port.revision + 1);
      }
    }

    // The attempt finds a pair it is to add among those that the others left.
    static predicate FindsPair(pairs: seq<Pair>, others: seq<seq<seq<Pair>>>, i: nat, ips: set<Ip>, mac: Mac, identical: set<Pair>)
      requires i <= |others|
    {
      AlreadyPresent(Before(pairs, others[..i]), ips, mac, identical)
    }

    // A request for a pod: it succeeds at the first attempt that nobody
    // disturbs, on top of the pairs the port then has; else it changes nothing.
    // It is refused without an attempt, without an address, or at the first
    // attempt that finds a pair there already.
    method RequestVif(ips: set<Ip>, mac: Mac, attempts: nat, identical: set<Pair>, others: seq<seq<seq<Pair>>>)
      returns (r: Answer, tries: nat, ghost was: seq<Pair>)
      requires |others| == attempts
      modifies this
      ensures tries <= attempts && (tries == 0 <==> attempts == 0) && was == Before(old(port.pairs), others[..tries])
      ensures forall i :: 0 <= i < tries - 1 ==> others[i] != [] && !FindsPair(old(port.pairs), others, i, ips, mac, identical)
      ensures r.Refused? <==> tries == 0 || ips == {} || FindsPair(old(port.pairs), others, tries - 1, ips, mac, identical)
      ensures !r.Refused? ==> (r.Added? <==> others[tries - 1] == []) && (r.Disturbed? ==> tries == attempts)
      ensures r.Added? ==> Extended(was, port.pairs, ips, mac)
      ensures !r.Added? ==> port.pairs == was
    {
      hide AlreadyPresent, Extended;
      var left := attempts;
      r, tries, was := if attempts == 0 then Refused else Disturbed, 0, port.pairs;
      while left > 0
        invariant tries + left == attempts && r == if attempts == 0 then Refused else Disturbed
        invariant forall i :: 0 <= i < tries ==> others[i] != [] && !FindsPair(old(port.pairs), others, i, ips, mac, identical)
        invariant was == Before(old(port.pairs), others[..tries]) && port.pairs == was
        invariant tries > 0 ==> ips != {}
      {
        var read := port;
        var some, now := AddToAllowedAddressPairs(read.pairs, ips, mac, identical);
        Others(others[tries]);
        was := port.pairs;
        assert others[..tries + 1][..tries] == others[..tries];
        tries, left := tries + 1, left - 1;
        if !some { return Refused, tries, was; }
        var ok := Update(now, read.revision);
        if ok { return Added, tries, was; }
      }
    }

    // The pairs after the others' updates alone.
    static function Before(pairs: seq<Pair>, others: seq<seq<seq<Pair>>>): seq<Pair> {
      if others == [] then pairs
      else
        var last := others[|others| - 1];
        if last == [] then Before(pairs, others[..|others| - 1]) else last[|last| - 1]
    }
  }
}
