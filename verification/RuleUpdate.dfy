/**
 Bringing a policy's security group up to date. The custom resource stores the
 rules with their Neutron ids; an update compares the newly parsed rules with
 the stored ones, deletes and creates rules, and stores the new list.
 */
module RuleUpdate {
  import opened Options

  type RuleId = nat

  datatype Direction = Ingress | Egress

  // What Neutron knows of a rule; no two rules of a security group have the same body.
  datatype Body = Body(direction: Direction, protocol: Option<string>, ports: Option<(nat, nat)>, prefix: Option<string>)

  // A rule of the custom resource.
  datatype Rule = Rule(id: Option<RuleId>, body: Body, namespace: Option<string>, pods: map<string, string>)

  function Strip(r: Rule): Rule { r.(id := None) }

  function Stripped(rules: seq<Rule>): (s: seq<Rule>)
    ensures |s| == |rules| && forall i :: 0 <= i < |s| ==> s[i] == Strip(rules[i])
  {
    seq(|rules|, i requires 0 <= i < |rules| => Strip(rules[i]))
  }

  predicate First(s: seq<Rule>, i: nat)
    requires i < |s|
  {
    forall j :: 0 <= j < i ==> s[j] != s[i]
  }

  // The rule is stored at two positions.
  predicate Twice(s: seq<Rule>, r: Rule) {
    exists i, j :: 0 <= i < j < |s| && s[i] == r && s[j] == r
  }

  // Equal rules were created once, so they share their id.
  predicate SharedIds(stored: seq<Rule>) {
    forall i, j :: 0 <= i < |stored| && 0 <= j < |stored| && Strip(stored[i]) == Strip(stored[j]) ==> stored[i].id == stored[j].id
  }

  predicate HaveIds(rules: seq<Rule>) { forall i :: 0 <= i < |rules| ==> rules[i].id.Some? }

  predicate NoIds(rules: seq<Rule>) { forall i :: 0 <= i < |rules| ==> rules[i].id.None? }

  predicate Live(sg: map<RuleId, Body>, r: Rule) { r.id.Some? && r.id.value in sg && sg[r.id.value] == r.body }

  ghost predicate AllLive(sg: map<RuleId, Body>, rules: seq<Rule>) { forall i :: 0 <= i < |rules| ==> Live(sg, rules[i]) }

  ghost predicate UniqueBodies(sg: map<RuleId, Body>) {
    forall a, b :: a in sg && b in sg && sg[a] == sg[b] ==> a == b
  }

  ghost predicate Distinct(rules: seq<Rule>) { forall i, j :: 0 <= i < j < |rules| ==> Strip(rules[i]) != Strip(rules[j]) }

  ghost function IdsOf(rules: seq<Rule>): set<RuleId> { set i | 0 <= i < |rules| && rules[i].id.Some? :: rules[i].id.value }

  ghost function BodiesOf(rules: seq<Rule>): set<Body> { set i | 0 <= i < |rules| :: rules[i].body }

  // Live rules share their ids as they should.
  lemma LiveShare(sg: map<RuleId, Body>, rules: seq<Rule>)
    requires UniqueBodies(sg) && AllLive(sg, rules)
    ensures SharedIds(rules) && HaveIds(rules)
  {
    forall i, j | 0 <= i < |rules| && 0 <= j < |rules| && Strip(rules[i]) == Strip(rules[j]) ensures rules[i].id == rules[j].id {
      assert rules[i].body == Strip(rules[i]).body && Live(sg, rules[i]) && Live(sg, rules[j]);
    }
  }

  // The stored rules after those still wanted got their ids back: of equal
  // rules, only the first does.
  ghost predicate GotIdsBack(rules: seq<Rule>, stripped: seq<Rule>, ids: seq<RuleId>, current: seq<Rule>) {
    && |rules| == |stripped| == |ids|
    && forall i :: 0 <= i < |rules| ==>
         rules[i] == if stripped[i] in current && First(stripped, i) then stripped[i].(id := Some(ids[i])) else stripped[i]
  }

  lemma {:induction false} FirstExists(s: seq<Rule>, r: Rule) returns (i: nat)
    requires r in s
    ensures i < |s| && s[i] == r && First(s, i)
  {
    var init, last := s[..|s| - 1], |s| - 1;
    if r in init {
      i := FirstExists(init, r);
    } else {
      i := last;
      assert forall j :: 0 <= j < last ==> s[j] in init;
    }
  }

  // A parsed rule is found among the stored ones only if it was stored twice.
  lemma FoundOnlyTwice(rules: seq<Rule>, stripped: seq<Rule>, ids: seq<RuleId>, current: seq<Rule>, r: Rule)
    requires GotIdsBack(rules, stripped, ids, current) && NoIds(stripped) && r in current && r.id.None?
    ensures r in rules <==> Twice(stripped, r)
  {
    if r in rules {
      var j :| 0 <= j < |rules| && rules[j] == r;
      assert stripped[j] == r && !First(stripped, j);
    }
    if Twice(stripped, r) {
      var i, j :| 0 <= i < j < |stripped| && stripped[i] == r && stripped[j] == r;
      assert !First(stripped, j) && rules[j] == r;
    }
  }

  // Where a stored rule that is no longer found, with its id or without,
  // stands first.
  predicate DeletedAt(rules: seq<Rule>, current: seq<Rule>, i: nat, at: nat)
    requires i < |rules|
  {
    rules[i] !in current && at < |rules| && rules[at] == rules[i] && First(rules, at)
  }

  // Every stored id is deleted, kept rules included.
  lemma AllDeleted(rules: seq<Rule>, stripped: seq<Rule>, ids: seq<RuleId>, current: seq<Rule>, i: nat) returns (j: nat, at: nat)
    requires GotIdsBack(rules, stripped, ids, current) && NoIds(stripped) && NoIds(current) && i < |rules|
    requires forall a, b :: 0 <= a < |ids| && 0 <= b < |ids| && stripped[a] == stripped[b] ==> ids[a] == ids[b]
    ensures j < |rules| && DeletedAt(rules, current, j, at) && ids[at] == ids[i]
  {
    j := FirstExists(stripped, stripped[i]);
    assert rules[j] !in current;
    at := FirstExists(rules, rules[j]);
    assert stripped[at] == stripped[j];
  }

  // What an update leaves: the parsed rules, each live unless it was stored
  // twice, and in the security group nothing else but what no stored rule named.
  ghost predicate Updated(was: map<RuleId, Body>, sg: map<RuleId, Body>, stored: seq<Rule>, parsed: seq<Rule>, rules: seq<Rule>) {
    && Stripped(rules) == parsed
    && (forall k :: 0 <= k < |rules| ==> if Twice(Stripped(stored), parsed[k]) then rules[k].id.None? else Live(sg, rules[k]))
    && (forall id :: id in was && id !in IdsOf(stored) ==> id in sg && sg[id] == was[id])
    && (forall id :: id in sg ==> (id in was && id !in IdsOf(stored))
                                  || exists k :: 0 <= k < |parsed| && !Twice(Stripped(stored), parsed[k]) && parsed[k].body == sg[id])
  }

  // The stored rules are live, and the security group holds them and the defaults.
  ghost predicate Sound(sg: map<RuleId, Body>, defaults: map<RuleId, Body>, rules: seq<Rule>) {
    && AllLive(sg, rules)
    && (forall id :: id in defaults ==> id in sg && sg[id] == defaults[id])
    && sg.Values == defaults.Values + BodiesOf(rules)
  }

  // No stored rule names a default rule.
  ghost predicate Apart(defaults: map<RuleId, Body>, rules: seq<Rule>) {
    forall i :: 0 <= i < |rules| ==> rules[i].body !in defaults.Values
  }

  // After an update every rule is live if and only if no parsed rule was
  // stored twice.
  lemma LiveIff(was: map<RuleId, Body>, sg: map<RuleId, Body>, stored: seq<Rule>, parsed: seq<Rule>, rules: seq<Rule>)
    requires Updated(was, sg, stored, parsed, rules)
    ensures AllLive(sg, rules) <==> forall k :: 0 <= k < |parsed| ==> !Twice(Stripped(stored), parsed[k])
  {
    if AllLive(sg, rules) {
      forall k | 0 <= k < |parsed| ensures !Twice(Stripped(stored), parsed[k]) { assert Live(sg, rules[k]); }
    }
  }

  lemma DistinctNotTwice(stored: seq<Rule>, r: Rule)
    requires Distinct(stored)
    ensures !Twice(Stripped(stored), r)
  {
  }

  // From distinct stored rules, the security group ends with the defaults and
  // the parsed rules, and every rule is live, even if the parsed list repeats some.
  lemma DistinctIsSound(was: map<RuleId, Body>, sg: map<RuleId, Body>, defaults: map<RuleId, Body>, stored: seq<Rule>,
                        parsed: seq<Rule>, rules: seq<Rule>)
    requires UniqueBodies(was) && Sound(was, defaults, stored) && Apart(defaults, stored) && Distinct(stored)
    requires Updated(was, sg, stored, parsed, rules)
    ensures Sound(sg, defaults, rules)
  {
    forall k | 0 <= k < |parsed| ensures !Twice(Stripped(stored), parsed[k]) && Live(sg, rules[k]) && rules[k].body == parsed[k].body {
      DistinctNotTwice(stored, parsed[k]);
      assert Stripped(rules)[k] == parsed[k];
    }
    forall id | id in defaults ensures id !in IdsOf(stored) {
      forall i | 0 <= i < |stored| ensures stored[i].id != Some(id) { assert Live(was, stored[i]); }
    }
    forall body | body in sg.Values ensures body in defaults.Values + BodiesOf(rules) {
      var id :| id in sg && sg[id] == body;
      if id in was && id !in IdsOf(stored) {
        forall i | 0 <= i < |stored| ensures stored[i].body != was[id] {
          assert Live(was, stored[i]);
          assert stored[i].id.value in IdsOf(stored);
        }
        assert was[id] in was.Values;
      } else {
        var k :| 0 <= k < |parsed| && parsed[k].body == sg[id];
        assert rules[k].body == body;
      }
    }
    forall body | body in BodiesOf(rules) ensures body in sg.Values {
      var k :| 0 <= k < |rules| && rules[k].body == body;
      assert Live(sg, rules[k]);
    }
  }

  class RuleUpdater {
    var sg: map<RuleId, Body>
    var next: RuleId

    ghost predicate Valid()
      reads this
    {
      UniqueBodies(sg) && forall i :: i in sg ==> i < next
    }

    constructor ()
      ensures Valid() && sg == map[]
    {
      sg, next := map[], 0;
    }

    // Creates the rule, or finds the one with the same body.
    method Create(body: Body) returns (id: RuleId)
      requires Valid()
      modifies this
      ensures Valid() && id in sg && sg[id] == body
      ensures sg == if body in old(sg).Values then old(sg) else old(sg)[id := body]
      ensures body !in old(sg).Values ==> id !in old(sg)
    {
      if i :| i in sg && sg[i] == body { return i; }
      id := next;
      sg, next := sg[id := body], next + 1;
    }

    // A missing rule is ignored.
    method Delete(id: RuleId)
      requires Valid()
      modifies this
      ensures Valid() && sg == old(sg) - {id}
    {
      sg := sg - {id};
    }

    static method IndexOf(rules: seq<Rule>, r: Rule) returns (i: nat)
      requires r in rules
      ensures i < |rules| && rules[i] == r && First(rules, i)
    {
      i := 0;
      while rules[i] != r
        invariant i < |rules| && r !in rules[..i] && r in rules[i..]
        decreases |rules| - i
      {
        assert rules[i..] == [rules[i]] + rules[i + 1..] && rules[..i + 1] == rules[..i] + [rules[i]];
        i := i + 1;
      }
    }

    // Takes the ids off the stored rules; fails if a rule has none.
    static method PopIds(stored: seq<Rule>) returns (ok: bool, ids: seq<RuleId>)
      ensures ok <==> HaveIds(stored)
      ensures ok ==> |ids| == |stored| && forall i :: 0 <= i < |ids| ==> Some(ids[i]) == stored[i].id
    {
      ok, ids := true, [];
      for i := 0 to |stored|
        invariant |ids| == i && forall j :: 0 <= j < i ==> Some(ids[j]) == stored[j].id
      {
        if stored[i].id.None? { return false, ids; }
        ids := ids + [stored[i].id.value];
      }
    }

    // The positions, each the first of its equals, of the rules still wanted.
    static method ToKeep(rules: seq<Rule>, current: seq<Rule>) returns (at: seq<nat>)
      ensures forall n :: 0 <= n < |at| ==> at[n] < |rules| && First(rules, at[n]) && rules[at[n]] in current
      ensures forall i :: 0 <= i < |rules| && First(rules, i) && rules[i] in current ==> i in at
    {
      at := [];
      for i := 0 to |rules|
        invariant forall n :: 0 <= n < |at| ==> at[n] < |rules| && First(rules, at[n]) && rules[at[n]] in current
        invariant forall j :: 0 <= j < i && First(rules, j) && rules[j] in current ==> j in at
      {
        if rules[i] in current {
          var f := IndexOf(rules, rules[i]);
          assert First(rules, i) ==> f == i;
          at := at + [f];
        }
      }
    }

    static method GiveIdsBack(stripped: seq<Rule>, ids: seq<RuleId>, current: seq<Rule>) returns (rules: seq<Rule>)
      requires |ids| == |stripped|
      ensures GotIdsBack(rules, stripped, ids, current)
    {
      var at := ToKeep(stripped, current);
      rules := stripped;
      for n := 0 to |at|
        invariant |rules| == |stripped|
        invariant forall i :: 0 <= i < |rules| ==> rules[i] == if i in at[..n] then stripped[i].(id := Some(ids[i])) else stripped[i]
      {
        assert at[..n + 1] == at[..n] + [at[n]];
        rules := rules[at[n] := rules[at[n]].(id := Some(ids[at[n]]))];
      }
      assert at[..|at|] == at;
    }

    // Deletes the stored rules not found among the parsed ones. The kept rules
    // have their id again, so none is found.
    method DeleteRules(rules: seq<Rule>, ids: seq<RuleId>, current: seq<Rule>, ghost stripped: seq<Rule>)
      requires Valid() && GotIdsBack(rules, stripped, ids, current) && NoIds(stripped) && NoIds(current)
      requires forall a, b :: 0 <= a < |ids| && 0 <= b < |ids| && stripped[a] == stripped[b] ==> ids[a] == ids[b]
      modifies this
      ensures Valid() && sg == old(sg) - set i | 0 <= i < |ids| :: ids[i]
    {
      ghost var gone: set<RuleId> := {};
      for i := 0 to |rules|
        invariant Valid() && sg == old(sg) - gone
        invariant forall id :: id in gone ==> exists k :: 0 <= k < |ids| && ids[k] == id
        invariant forall j, at :: 0 <= j < i && 0 <= at && DeletedAt(rules, current, j, at) ==> ids[at] in gone
      {
        if rules[i] !in current {
          var at := IndexOf(rules, rules[i]);
          forall b: nat | DeletedAt(rules, current, i, b) ensures b == at {}
          Delete(ids[at]);
          gone := gone + {ids[at]};
        }
      }
      forall i | 0 <= i < |ids| ensures ids[i] in gone {
        var j, at := AllDeleted(rules, stripped, ids, current, i);
      }
      assert gone == set i | 0 <= i < |ids| :: ids[i];
    }

    // The parsed rules not found among the stored ones.
    static method ToAdd(rules: seq<Rule>, current: seq<Rule>) returns (at: seq<nat>)
      ensures forall n :: 0 <= n < |at| ==> at[n] < |current| && current[at[n]] !in rules
      ensures forall k :: 0 <= k < |current| && current[k] !in rules ==> k in at
    {
      at := [];
      for k := 0 to |current|
        invariant forall n :: 0 <= n < |at| ==> at[n] < |current| && current[at[n]] !in rules
        invariant forall j :: 0 <= j < k && current[j] !in rules ==> j in at
      {
        if current[k] !in rules { at := at + [k]; }
      }
    }

    // What is known of the new rules while they are created: the parsed rules,
    // with live ids, and only where they are to be added.
    static ghost predicate Created(sg: map<RuleId, Body>, rules: seq<Rule>, parsed: seq<Rule>, toAdd: seq<nat>) {
      && Stripped(rules) == parsed
      && forall k :: 0 <= k < |rules| && rules[k].id.Some? ==> Live(sg, rules[k]) && k in toAdd
    }

    // Sets the id on every rule of the direction that equals the one created,
    // until that rule itself gets it.
    static method SetIds(rules: seq<Rule>, at: nat, id: RuleId, lo: nat, hi: nat, ghost sg: map<RuleId, Body>, ghost parsed: seq<Rule>,
                         ghost toAdd: seq<nat>)
      returns (r: seq<Rule>)
      requires lo <= at < hi <= |rules| && id in sg && sg[id] == rules[at].body
      requires Created(sg, rules, parsed, toAdd)
      requires forall k :: 0 <= k < |parsed| && parsed[k] == parsed[at] ==> k in toAdd
      ensures Created(sg, r, parsed, toAdd) && r[at].id.Some?
      ensures forall k :: 0 <= k < |r| && rules[k].id.Some? ==> r[k].id.Some?
    {
      r := rules;
      for k := lo to hi
        invariant Created(sg, r, parsed, toAdd)
        invariant forall j :: 0 <= j < |r| && rules[j].id.Some? ==> r[j].id.Some?
        invariant at < k ==> r[at].id.Some?
      {
        if r[at] == r[k] {
          assert Strip(r[k]) == parsed[k] && Strip(r[at]) == parsed[at];
          ghost var was := r;
          r := r[k := r[k].(id := Some(id))];
          assert forall j :: 0 <= j < |r| ==> Stripped(r)[j] == Stripped(was)[j];
        }
      }
    }

    // The rules created so far.
    static ghost predicate AddedSoFar(sg: map<RuleId, Body>, was: map<RuleId, Body>, rules: seq<Rule>, parsed: seq<Rule>,
                                      toAdd: seq<nat>, n: nat)
      requires n <= |toAdd| && forall m :: 0 <= m < |toAdd| ==> toAdd[m] < |parsed|
    {
      && Created(sg, rules, parsed, toAdd)
      && (forall m :: 0 <= m < n ==> rules[toAdd[m]].id.Some?)
      && (forall id :: id in was ==> id in sg && sg[id] == was[id])
      && (forall id :: id in sg ==> id in was || exists m :: 0 <= m < n && parsed[toAdd[m]].body == sg[id])
    }

    method AddRules(parsed: seq<Rule>, ingress: nat, toAdd: seq<nat>) returns (rules: seq<Rule>)
      requires Valid() && NoIds(parsed) && ingress <= |parsed|
      requires forall k :: 0 <= k < |parsed| ==> (parsed[k].body.direction == Ingress <==> k < ingress)
      requires forall m :: 0 <= m < |toAdd| ==> toAdd[m] < |parsed|
      requires forall k, j :: 0 <= k < |parsed| && 0 <= j < |parsed| && k in toAdd && parsed[j] == parsed[k] ==> j in toAdd
      modifies this
      ensures Valid() && AddedSoFar(sg, old(sg), rules, parsed, toAdd, |toAdd|)
    {
      rules := parsed;
      assert Stripped(rules) == parsed;
      for n := 0 to |toAdd|
        invariant Valid() && AddedSoFar(sg, old(sg), rules, parsed, toAdd, n)
      {
        var a := toAdd[n];
        assert a in toAdd && Strip(rules[a]) == parsed[a];
        ghost var before, was := sg, rules;
        var id := Create(rules[a].body);
        hide UniqueBodies, Stripped, Live;
        CreatedStill(before, sg, rules, parsed, toAdd, id, rules[a].body);
        rules := SetIds(rules, a, id, if rules[a].body.direction == Ingress then 0 else ingress,
                        if rules[a].body.direction == Ingress then ingress else |rules|, sg, parsed, toAdd);
        AddedNext(before, sg, old(sg), was, rules, parsed, toAdd, n, id);
      }
    }

    // The server after one rule was created or found.
    static ghost predicate OneMore(before: map<RuleId, Body>, sg: map<RuleId, Body>, id: RuleId, body: Body) {
      && id in sg && sg[id] == body && (body !in before.Values ==> id !in before)
      && sg == if body in before.Values then before else before[id := body]
    }

    lemma CreatedStill(before: map<RuleId, Body>, sg: map<RuleId, Body>, rules: seq<Rule>, parsed: seq<Rule>, toAdd: seq<nat>,
                       id: RuleId, body: Body)
      requires Created(before, rules, parsed, toAdd) && OneMore(before, sg, id, body)
      ensures Created(sg, rules, parsed, toAdd)
    {
    }

    lemma AddedNext(before: map<RuleId, Body>, sg: map<RuleId, Body>, was: map<RuleId, Body>, rules: seq<Rule>, rules': seq<Rule>,
                    parsed: seq<Rule>, toAdd: seq<nat>, n: nat, id: RuleId)
      requires n < |toAdd| && forall m :: 0 <= m < |toAdd| ==> toAdd[m] < |parsed|
      requires AddedSoFar(before, was, rules, parsed, toAdd, n)
      requires OneMore(before, sg, id, parsed[toAdd[n]].body) && Created(sg, rules', parsed, toAdd)
      requires toAdd[n] < |rules'| && rules'[toAdd[n]].id.Some?
      requires |rules'| == |rules| && forall k :: 0 <= k < |rules| && rules[k].id.Some? ==> rules'[k].id.Some?
      ensures AddedSoFar(sg, was, rules', parsed, toAdd, n + 1)
    {
      hide Live, Stripped;
      forall i | i in sg && i !in was ensures exists m :: 0 <= m < n + 1 && parsed[toAdd[m]].body == sg[i] {
        if i in before && sg[i] == before[i] {
          var m :| 0 <= m < n && parsed[toAdd[m]].body == before[i];
        } else {
          assert parsed[toAdd[n]].body == sg[i];
        }
      }
    }

    method Update(storedI: seq<Rule>, storedE: seq<Rule>, parsedI: seq<Rule>, parsedE: seq<Rule>)
      returns (ok: bool, ingress: seq<Rule>, egress: seq<Rule>)
      requires Valid() && SharedIds(storedI + storedE) && NoIds(parsedI) && NoIds(parsedE)
      requires forall k :: 0 <= k < |parsedI| ==> parsedI[k].body.direction == Ingress
      requires forall k :: 0 <= k < |parsedE| ==> parsedE[k].body.direction == Egress
      modifies this
      ensures Valid() && (ok <==> HaveIds(storedI + storedE))
      ensures !ok ==> sg == old(sg)
      ensures ok ==> Stripped(ingress) == parsedI && Stripped(egress) == parsedE
      ensures ok ==> Updated(old(sg), sg, storedI + storedE, parsedI + parsedE, ingress + egress)
    {
      var stored, parsed := storedI + storedE, parsedI + parsedE;
      var ids: seq<RuleId>;
      ok, ids := PopIds(stored);
      if !ok { return false, [], []; }
      var rules := UpdateRules(stored, ids, parsed, |parsedI|);
      ingress, egress := rules[..|parsedI|], rules[|parsedI|..];
      SplitParsed(rules, parsedI, parsedE);
    }

    lemma SplitParsed(rules: seq<Rule>, parsedI: seq<Rule>, parsedE: seq<Rule>)
      requires Stripped(rules) == parsedI + parsedE
      ensures |rules| == |parsedI| + |parsedE|
      ensures Stripped(rules[..|parsedI|]) == parsedI && Stripped(rules[|parsedI|..]) == parsedE
      ensures rules[..|parsedI|] + rules[|parsedI|..] == rules
    {
      forall k | 0 <= k < |parsedI| ensures Stripped(rules[..|parsedI|])[k] == parsedI[k] { assert Stripped(rules)[k] == parsedI[k]; }
      forall k | 0 <= k < |parsedE| ensures Stripped(rules[|parsedI|..])[k] == parsedE[k] {
        assert Stripped(rules)[|parsedI| + k] == parsedE[k];
      }
    }

    method UpdateRules(stored: seq<Rule>, ids: seq<RuleId>, parsed: seq<Rule>, ingress: nat) returns (rules: seq<Rule>)
      requires Valid() && SharedIds(stored) && NoIds(parsed) && ingress <= |parsed|
      requires |ids| == |stored| && forall i :: 0 <= i < |ids| ==> Some(ids[i]) == stored[i].id
      requires forall k :: 0 <= k < |parsed| ==> (parsed[k].body.direction == Ingress <==> k < ingress)
      modifies this
      ensures Valid() && Updated(old(sg), sg, stored, parsed, rules)
    {
      var existing := Stripped(stored);
      var kept := GiveIdsBack(existing, ids, parsed);
      DeleteRules(kept, ids, parsed, existing);
      ghost var mid := sg;
      var toAdd := ToAdd(kept, parsed);
      forall k | 0 <= k < |parsed| ensures k in toAdd <==> !Twice(existing, parsed[k]) {
        FoundOnlyTwice(kept, existing, ids, parsed, parsed[k]);
      }
      rules := AddRules(parsed, ingress, toAdd);
      AllAdded(old(sg), mid, sg, stored, ids, parsed, rules, toAdd);
    }

    lemma AllAdded(was: map<RuleId, Body>, mid: map<RuleId, Body>, sg: map<RuleId, Body>, stored: seq<Rule>, ids: seq<RuleId>,
                   parsed: seq<Rule>, rules: seq<Rule>, toAdd: seq<nat>)
      requires |ids| == |stored| && forall i :: 0 <= i < |ids| ==> Some(ids[i]) == stored[i].id
      requires mid == was - set i | 0 <= i < |ids| :: ids[i]
      requires forall m :: 0 <= m < |toAdd| ==> toAdd[m] < |parsed|
      requires forall k :: 0 <= k < |parsed| ==> (k in toAdd <==> !Twice(Stripped(stored), parsed[k]))
      requires AddedSoFar(sg, mid, rules, parsed, toAdd, |toAdd|)
      ensures Updated(was, sg, stored, parsed, rules)
    {
      assert IdsOf(stored) == set i | 0 <= i < |ids| :: ids[i];
      forall k | 0 <= k < |rules| ensures if Twice(Stripped(stored), parsed[k]) then rules[k].id.None? else Live(sg, rules[k]) {
        if k in toAdd { var m :| 0 <= m < |toAdd| && toAdd[m] == k; }
      }
      forall id | id in sg && id !in mid
        ensures exists k :: 0 <= k < |parsed| && !Twice(Stripped(stored), parsed[k]) && parsed[k].body == sg[id]
      {
        var m :| 0 <= m < |toAdd| && parsed[toAdd[m]].body == sg[id];
        assert toAdd[m] in toAdd;
      }
    }

    // The first rules of a policy: each is created, repeated ones share their id.
    method CreateRules(parsed: seq<Rule>) returns (rules: seq<Rule>)
      requires Valid() && NoIds(parsed)
      modifies this
      ensures Valid() && Stripped(rules) == parsed && Sound(sg, old(sg), rules)
    {
      rules := parsed;
      assert Stripped(rules) == parsed;
      for n := 0 to |rules|
        invariant Valid() && Stripped(rules) == parsed && AllLive(sg, rules[..n]) && rules[n..] == parsed[n..]
        invariant forall id :: id in old(sg) ==> id in sg && sg[id] == old(sg)[id]
        invariant sg.Values == old(sg).Values + BodiesOf(rules[..n])
      {
        ghost var was, before := rules, sg;
        assert rules[n] == rules[n..][0] == parsed[n];
        var id := Create(rules[n].body);
        rules := rules[n := rules[n].(id := Some(id))];
        OneMoreLive(before, sg, was, rules, n, id);
      }
      assert rules[..|rules|] == rules;
    }

    lemma OneMoreLive(before: map<RuleId, Body>, sg: map<RuleId, Body>, was: seq<Rule>, rules: seq<Rule>, n: nat, id: RuleId)
      requires n < |was| && rules == was[n := was[n].(id := Some(id))] && was[n].id.None?
      requires AllLive(before, was[..n]) && id in sg && sg[id] == was[n].body
      requires sg == if was[n].body in before.Values then before else before[id := was[n].body]
      requires was[n].body !in before.Values ==> id !in before
      ensures Stripped(rules) == Stripped(was) && AllLive(sg, rules[..n + 1]) && rules[n + 1..] == was[n + 1..]
      ensures sg.Values == before.Values + {was[n].body}
      ensures BodiesOf(rules[..n + 1]) == BodiesOf(was[..n]) + {was[n].body}
    {
      var now := rules[..n + 1];
      forall k | 0 <= k < |now| ensures Live(sg, now[k]) {
        if k < n { assert Live(before, was[..n][k]); }
      }
      assert sg.Values == before.Values + {was[n].body} by {
        assert sg[id] in sg.Values;
        forall body | body in before.Values ensures body in sg.Values {
          var i :| i in before && before[i] == body;
          assert i in sg && sg[i] == body;
        }
      }
      forall body ensures body in BodiesOf(now) <==> body in BodiesOf(was[..n]) + {was[n].body} {
        if body in BodiesOf(was[..n]) {
          var k :| 0 <= k < n && was[..n][k].body == body;
          assert now[k].body == body;
        }
        if body == was[n].body { assert now[n].body == body; }
        if body in BodiesOf(now) {
          var k :| 0 <= k < |now| && now[k].body == body;
          assert k < n ==> was[..n][k].body == body;
        }
      }
    }

    // As long as no parse repeats a rule, every update in turn succeeds and
    // leaves the security group sound.
    method UpdateAll(storedI: seq<Rule>, storedE: seq<Rule>, parses: seq<(seq<Rule>, seq<Rule>)>, ghost defaults: map<RuleId, Body>)
      returns (ok: bool, ingress: seq<Rule>, egress: seq<Rule>)
      requires Valid() && Sound(sg, defaults, storedI + storedE) && Steady(defaults, storedI, storedE)
      requires forall n :: 0 <= n < |parses| ==> Parsed(parses[n].0, parses[n].1) && Steady(defaults, parses[n].0, parses[n].1)
      modifies this
      ensures Valid() && ok && Sound(sg, defaults, ingress + egress)
      ensures parses != [] ==> Stripped(ingress) == parses[|parses| - 1].0 && Stripped(egress) == parses[|parses| - 1].1
    {
      ok, ingress, egress := true, storedI, storedE;
      for n := 0 to |parses|
        invariant Valid() && ok && Sound(sg, defaults, ingress + egress) && Steady(defaults, ingress, egress)
        invariant n > 0 ==> Stripped(ingress) == parses[n - 1].0 && Stripped(egress) == parses[n - 1].1
      {
        var stored := ingress + egress;
        ghost var was := sg;
        LiveShare(sg, stored);
        ok, ingress, egress := Update(ingress, egress, parses[n].0, parses[n].1);
        DistinctIsSound(was, sg, defaults, stored, parses[n].0 + parses[n].1, ingress + egress);
        StillSteady(defaults, parses[n].0 + parses[n].1, ingress + egress);
      }
    }

    static ghost predicate Parsed(i: seq<Rule>, e: seq<Rule>) {
      && NoIds(i) && NoIds(e)
      && (forall k :: 0 <= k < |i| ==> i[k].body.direction == Ingress) && (forall k :: 0 <= k < |e| ==> e[k].body.direction == Egress)
    }

    static ghost predicate Steady(defaults: map<RuleId, Body>, i: seq<Rule>, e: seq<Rule>) {
      Distinct(i + e) && Apart(defaults, i + e)
    }

    lemma StillSteady(defaults: map<RuleId, Body>, parsed: seq<Rule>, rules: seq<Rule>)
      requires Distinct(parsed) && Apart(defaults, parsed) && Stripped(rules) == parsed
      ensures Distinct(rules) && Apart(defaults, rules)
    {
      forall k | 0 <= k < |rules| ensures Strip(rules[k]) == Strip(parsed[k]) && rules[k].body == parsed[k].body {
        assert Stripped(rules)[k] == parsed[k];
      }
    }

    // A policy created with a repeated rule, then updated without a change,
    // loses the rule; the next update fails for want of its id.
    static method RepeatedRuleIsLost(r: Rule) returns (updater: RuleUpdater, rules: seq<Rule>, again: bool)
      requires r.id.None? && r.body.direction == Ingress
      ensures fresh(updater) && updater.sg == map[] && rules == [r, r] && !again
    {
      updater := new RuleUpdater();
      var stored := updater.CreateRules([r, r]);
      LiveShare(updater.sg, stored);
      assert stored + [] == stored && [r, r] + [] == [r, r];
      ghost var sg := updater.sg;
      var ok, ingress, egress := updater.Update(stored, [], [r, r], []);
      assert Twice(Stripped(stored), r) by { assert Stripped(stored)[0] == r && Stripped(stored)[1] == r; }
      LostForGood(sg, updater.sg, stored, r, ingress, egress);
      rules := ingress;
      var i, e;
      again, i, e := updater.Update(rules, [], [r, r], []);
      assert rules + [] == rules;
    }

    static lemma LostForGood(was: map<RuleId, Body>, sg: map<RuleId, Body>, stored: seq<Rule>, r: Rule, ingress: seq<Rule>, egress: seq<Rule>)
      requires r.id.None? && |stored| == 2 && Stripped(stored) == [r, r] && AllLive(was, stored) && was.Values == BodiesOf(stored) && UniqueBodies(was)
      requires Stripped(ingress) == [r, r] && Stripped(egress) == [] && Updated(was, sg, stored, [r, r], ingress + egress)
      ensures sg == map[] && ingress == [r, r]
    {
      var rules := ingress + egress;
      assert Twice(Stripped(stored), r) by { assert Stripped(stored)[0] == r && Stripped(stored)[1] == r; }
      assert Strip(rules[0]) == [r, r][0] && Strip(rules[1]) == [r, r][1] && rules[0] == ingress[0] && rules[1] == ingress[1];
      AllNamed(was, stored);
      hide Live, UniqueBodies;
      assert forall k :: 0 <= k < 2 ==> [r, r][k] == r;
      assert sg.Keys == {};
    }

    static lemma AllNamed(was: map<RuleId, Body>, stored: seq<Rule>)
      requires AllLive(was, stored) && was.Values == BodiesOf(stored) && UniqueBodies(was)
      ensures forall id :: id in was ==> id in IdsOf(stored)
    {
      forall id | id in was ensures id in IdsOf(stored) {
        assert was[id] in was.Values;
        var i :| 0 <= i < |stored| && stored[i].body == was[id];
        assert Live(was, stored[i]);
      }
    }
  }
}
