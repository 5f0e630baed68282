/**
 Annotating a Kubernetes object that others write, too. The client patches the
 object guarded by a resource version; on a conflict it reads the object and
 tries again with the version it read.
 */
module Annotate {
  import opened Options

  type Annotations = map<string, string>

  // A value of None is JSON's null.
  type Request = map<string, Option<string>>

  // The merge of section 2 of RFC 7396, for a flat object: null removes.
  function Merge(stored: Annotations, request: Request): Annotations {
    map k | k in stored.Keys + request.Keys && !(k in request && request[k].None?)
      :: if k in request then request[k].value else stored[k]
  }

  function Get(stored: Annotations, k: string): Option<string> { if k in stored then Some(stored[k]) else None }

  // Every requested annotation is there, and every one requested away is not.
  predicate AllPresent(stored: Annotations, request: Request) {
    forall k :: k in request ==> Get(stored, k) == request[k]
  }

  lemma PresentIffNoChange(stored: Annotations, request: Request)
    ensures AllPresent(stored, request) <==> Merge(stored, request) == stored
  {
    if Merge(stored, request) == stored {
      forall k | k in request ensures Get(stored, k) == request[k] {
        assert k in Merge(stored, request) <==> request[k].Some?;
      }
    }
  }

  lemma MergeTakesEffect(stored: Annotations, request: Request)
    ensures AllPresent(Merge(stored, request), request)
    ensures Merge(Merge(stored, request), request) == Merge(stored, request)
    ensures forall k :: k !in request ==> Get(Merge(stored, request), k) == Get(stored, k)
  {
    PresentIffNoChange(Merge(stored, request), request);
  }

  // A request can leave an object without annotations if and only if it asks
  // for nothing but removals.
  lemma MayEmptyIff(request: Request, stored: Annotations)
    ensures (exists any: Annotations :: Merge(any, request) == map[]) <==> forall k :: k in request ==> request[k].None?
    ensures Merge(stored, request) == map[] ==> forall k :: k in request ==> request[k].None?
  {
    forall any: Annotations, k | k in request && request[k].Some? ensures k in Merge(any, request) {}
    if forall k :: k in request ==> request[k].None? { assert Merge(map[], request) == map[]; }
  }

  // Others' updates in one attempt: before the patch, and between a conflict
  // and the read that follows.
  datatype Interference = Interference(beforePatch: seq<Annotations>, beforeRead: seq<Annotations>)

  datatype Answer = Accepted | Conflict | OtherError

  // NoAnnotations: the server's answer to the patch has none to return.
  datatype Result = Stored(annotations: Annotations) | NoAnnotations | Failed

  function Writes(others: seq<Interference>): seq<Annotations> {
    if others == [] then [] else Writes(others[..|others| - 1]) + others[|others| - 1].beforePatch + others[|others| - 1].beforeRead
  }

  // The annotations if only the others wrote.
  function Last(first: Annotations, writes: seq<Annotations>): Annotations {
    if writes == [] then first else writes[|writes| - 1]
  }

  // The attempts that another writer disturbed.
  function Disturbed(others: seq<Interference>): nat {
    if others == [] then 0 else Disturbed(others[..|others| - 1]) + if others[|others| - 1].beforePatch != [] then 1 else 0
  }

  class ApiServer {
    var annotations: Annotations
    var version: nat

    constructor (annotations: Annotations)
      ensures this.annotations == annotations && version == 0
    {
      this.annotations, version := annotations, 0;
    }

    method Others(writes: seq<Annotations>)
      modifies this
      ensures annotations == Last(old(annotations), writes) && version == old(version) + |writes|
    {
      for i := 0 to |writes|
        invariant annotations == Last(old(annotations), writes[..i]) && version == old(version) + i
      {
        annotations, version := writes[i], version + 1;
      }
      assert writes[..|writes|] == writes;
    }

    // A patch with a version other than the object's is refused; one that
    // changes nothing leaves the version.
    method Patch(request: Request, at: Option<nat>, breaks: bool) returns (answer: Answer)
      modifies this
      ensures answer == if breaks then OtherError else if at.Some? && at.value != old(version) then Conflict else Accepted
      ensures annotations == if answer.Accepted? then Merge(old(annotations), request) else old(annotations)
      ensures version == if annotations == old(annotations) then old(version) else old(version) + 1
    {
      if breaks { return OtherError; }
      if at.Some? && at.value != version { return Conflict; }
      var merged := Merge(annotations, request);
      if merged != annotations { annotations, version := merged, version + 1; }
      return Accepted;
    }
  }

  class K8sClient {
    const server: ApiServer

    constructor (server: ApiServer)
      ensures this.server == server
    {
      this.server := server;
    }

    static method Check(stored: Annotations, request: Request) returns (present: bool)
      ensures present == AllPresent(stored, request)
    {
      var todo := request.Keys;
      while todo != {}
        invariant todo <= request.Keys && forall k :: k in request.Keys - todo ==> Get(stored, k) == request[k]
        decreases |todo|
      {
        var k :| k in todo;
        if request[k] != Get(stored, k) { return false; }
        todo := todo - {k};
      }
      return true;
    }

    // One attempt: a patch, and on a conflict a read. It is the last unless the
    // read shows that the request is not there yet.
    method Try(request: Request, at: Option<nat>, other: Interference, patchBreaks: bool, readBreaks: bool)
      returns (done: bool, result: Result, newVersion: nat, ghost wrote: bool, ghost alone: Annotations)
      modifies server
      ensures server.annotations == if wrote then Merge(alone, request) else alone
      ensures alone == old(server.annotations) || alone in other.beforePatch + other.beforeRead
      ensures !done ==> newVersion == server.version && !wrote && !AllPresent(server.annotations, request)
      ensures !done ==> at.Some? && at.value != old(server.version) + |other.beforePatch|
      ensures done && result.Stored? ==> result.annotations == server.annotations && AllPresent(result.annotations, request)
      ensures done ==> (result.NoAnnotations? <==> wrote && server.annotations == map[])
      ensures done && result.Failed? ==> patchBreaks || readBreaks
      ensures patchBreaks ==> done && result.Failed? && !wrote
      ensures !done ==> !readBreaks
      ensures wrote ==> at.None? || at.value == old(server.version) + |other.beforePatch|
    {
      done, result, newVersion, wrote := true, Failed, 0, false;
      server.Others(other.beforePatch);
      alone := server.annotations;
      var answer := server.Patch(request, at, patchBreaks);
      match answer
      case Accepted =>
        MergeTakesEffect(alone, request);
        wrote := true;
        result := if server.annotations == map[] then NoAnnotations else Stored(server.annotations);
      case OtherError =>
      case Conflict =>
        server.Others(other.beforeRead);
        alone := server.annotations;
        if readBreaks { return; }
        var present := Check(server.annotations, request);
        if present {
          result := Stored(server.annotations);
        } else {
          done, newVersion := false, server.version;
        }
    }

    // Pushes annotations. A normal return shows a moment at which the object
    // had all of them; the call writes at most once, and only what it is
    // asked to; and every retry but the first takes another writer's update.
    method Annotate(request: Request, at: Option<nat>, others: seq<Interference>, patchBreaks: set<nat>, readBreaks: set<nat>)
      returns (result: Result, attempts: nat, ghost wrote: bool, ghost alone: Annotations)
      modifies server
      ensures result.Stored? ==> result.annotations == server.annotations && Merge(result.annotations, request) == result.annotations
      ensures result.NoAnnotations? <==> wrote && server.annotations == map[]
      ensures result.NoAnnotations? ==> forall k :: k in request ==> request[k].None?
      // Only an error of the last attempt ends the call with one.
      ensures attempts > 0 && (result.Failed? ==> attempts - 1 in patchBreaks || attempts - 1 in readBreaks)
      ensures attempts - 1 in patchBreaks ==> result.Failed? && !wrote
      ensures forall n :: 0 <= n < attempts - 1 ==> n !in patchBreaks && n !in readBreaks
      // A write is guarded: nobody wrote since the version was read.
      ensures wrote ==> at.None? || if attempts == 1 then at.value == old(server.version) + |At(others, 0).beforePatch|
                                    else At(others, attempts - 1).beforePatch == []
      ensures server.annotations == if wrote then Merge(alone, request) else alone
      ensures alone == old(server.annotations) || alone in Writes(others)
      ensures forall k :: k !in request ==> Get(server.annotations, k) == Get(alone, k)
      ensures at.None? ==> attempts == 1
      ensures attempts <= 2 + Disturbed(others)
    {
      hide Merge, AllPresent, Writes, Disturbed, UpTo, Get, At;
      NothingUpTo(others);
      var version := at;
      attempts, wrote, alone, result := 0, false, server.annotations, Failed;
      while true
        invariant !wrote && server.annotations == alone
        invariant alone == old(server.annotations) || alone in Writes(UpTo(others, attempts))
        invariant if attempts > 0 then version == Some(server.version) && at.Some? else version == at
        invariant forall n :: 0 <= n < attempts ==> n !in patchBreaks && n !in readBreaks
        invariant attempts == 0 ==> server.version == old(server.version)
        invariant attempts <= 1 + Disturbed(UpTo(others, attempts)) && attempts <= |others| + 1
        decreases |others| + 1 - attempts
      {
        OneMore(others, attempts);
        var other := At(others, attempts);
        var done, newVersion;
        done, result, newVersion, wrote, alone := Try(request, version, other, attempts in patchBreaks, attempts in readBreaks);
        attempts, version := attempts + 1, Some(newVersion);
        if done { break; }
      }
      UpToAll(others, attempts);
      MergeTakesEffect(alone, request);
      PresentIffNoChange(server.annotations, request);
      if server.annotations == map[] && wrote { MayEmptyIff(request, alone); }
    }

    // Removing the only annotation succeeds, and is reported as an error.
    static method RemovingTheLast(k: string, v: string) returns (server: ApiServer, result: Result)
      ensures fresh(server) && server.annotations == map[] && result.NoAnnotations?
    {
      server := new ApiServer(map[k := v]);
      var client := new K8sClient(server);
      var attempts;
      ghost var wrote, alone;
      result, attempts, wrote, alone := client.Annotate(map[k := None], None, [], {}, {});
      assert Merge(map[k := v], map[k := None]) == map[];
      assert k in map[k := v];
    }

    // What others do in the n-th attempt, counted from 0.
    static function At(others: seq<Interference>, n: nat): Interference { if n < |others| then others[n] else Interference([], []) }

    static function UpTo(others: seq<Interference>, n: nat): seq<Interference> { if n <= |others| then others[..n] else others }

    static lemma NothingUpTo(others: seq<Interference>)
      ensures Writes(UpTo(others, 0)) == [] && Disturbed(UpTo(others, 0)) == 0
    {
    }

    static lemma OneMore(others: seq<Interference>, n: nat)
      ensures Writes(UpTo(others, n + 1)) == Writes(UpTo(others, n)) + At(others, n).beforePatch + At(others, n).beforeRead
      ensures Disturbed(UpTo(others, n + 1)) == Disturbed(UpTo(others, n)) + if At(others, n).beforePatch != [] then 1 else 0
      ensures n >= |others| ==> At(others, n) == Interference([], [])
    {
      if n < |others| {
        assert others[..n + 1][..n] == others[..n];
      } else {
        assert others[..|others|] == others;
      }
    }

    static lemma {:induction false} UpToAll(others: seq<Interference>, n: nat)
      ensures forall a :: a in Writes(UpTo(others, n)) ==> a in Writes(others)
      ensures Disturbed(UpTo(others, n)) <= Disturbed(others)
      decreases |others|
    {
      if n < |others| {
        var init := others[..|others| - 1];
        UpToAll(init, n);
        assert UpTo(init, n) == UpTo(others, n);
      } else {
        assert others[..|others|] == others;
      }
    }
  }
}
