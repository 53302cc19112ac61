/** Moving the addresses of an answer into replacement networks. */
module IpReplace {
  import opened Prelude
  import opened Bits
  import opened FirstOccurrences
  import opened Rows
  import opened Expansion

  datatype Ip = V4(value: nat) | V6(value: nat) {
    function Width(): nat { if V4? then 32 else 128 }
  }

  /** The address constructor decides the family by size alone. */
  function IpOf(n: nat): (ip: Ip) {
    if n < Pow2(32) then V4(n) else V6(n)
  }

  ghost predicate Family(ip: Ip, v6: bool) {
    ip.V6? <==> v6
  }

  /** Masking and or-ing puts the host part under the network address. */
  method MapIpToNetwork(ip: Ip, target: Network) returns (r: Ip)
    requires target.Valid() && Family(ip, target.v6)
    ensures r == IpOf(Place(ip.value, target))
  {
    var hostBits := ip.Width() - target.prefix;
    var mask := if hostBits > 0 then Pow2(hostBits) - 1 else 0;
    OrLowBits(target.base, ip.value, hostBits);
    r := IpOf(Or(target.base, And(ip.value, mask)));
  }

  /** The image keeps its family exactly when it is not an IPv6 value below 2^32. */
  lemma ImageFamilyIff(v: nat, t: Network)
    requires t.Valid()
    ensures Family(IpOf(Place(v, t)), t.v6) <==> !t.v6 || Place(v, t) >= Pow2(32)
  {
    PlaceLandsInTarget(v, t);
  }

  /** Address by address. */
  function AsIps(vs: seq<nat>): (ips: seq<Ip>)
    ensures |ips| == |vs| && forall i :: 0 <= i < |vs| ==> ips[i] == IpOf(vs[i])
  {
    seq(|vs|, i requires 0 <= i < |vs| => IpOf(vs[i]))
  }

  function ValuesOf(ips: seq<Ip>): (vs: seq<nat>)
    ensures |vs| == |ips| && forall i :: 0 <= i < |ips| ==> vs[i] == ips[i].value
  {
    seq(|ips|, i requires 0 <= i < |ips| => ips[i].value)
  }

  lemma AsIpsConcat(a: seq<nat>, b: seq<nat>)
    ensures AsIps(a + b) == AsIps(a) + AsIps(b)
  {
  }

  lemma AsIpsMembers(vs: seq<nat>, v: nat)
    ensures IpOf(v) in AsIps(vs) <==> v in vs
  {
    if IpOf(v) in AsIps(vs) {
      var i :| 0 <= i < |vs| && AsIps(vs)[i] == IpOf(v);
      assert vs[i] == v;
    }
    if v in vs {
      var i :| 0 <= i < |vs| && vs[i] == v;
      assert AsIps(vs)[i] == IpOf(v);
    }
  }

  /** Different values are different addresses, so duplicates can be dropped before or after. */
  lemma {:induction false} DedupAsIps(vs: seq<nat>)
    ensures Dedup(AsIps(vs)) == AsIps(Dedup(vs))
    decreases |vs|
  {
    if vs != [] {
      DedupAsIps(Init(vs));
      assert vs == Init(vs) + [Last(vs)];
      AsIpsConcat(Init(vs), [Last(vs)]);
      assert AsIps([Last(vs)]) == [IpOf(Last(vs))];
      DedupSnoc(AsIps(Init(vs)), IpOf(Last(vs)));
      AsIpsMembers(Dedup(Init(vs)), Last(vs));
      AsIpsConcat(Dedup(Init(vs)), [Last(vs)]);
    }
  }

  method MapRow(ip: Ip, targets: seq<Network>, v6: bool) returns (row: seq<Ip>)
    requires Family(ip, v6) && OneFamily(targets, v6)
    ensures row == AsIps(Row(ip.value, targets))
  {
    row := [];
    for k := 0 to |targets|
      invariant |row| == k && forall j :: 0 <= j < k ==> row[j] == IpOf(Place(ip.value, targets[j]))
    {
      var image := MapIpToNetwork(ip, targets[k]);
      row := row + [image];
    }
  }

  lemma ImagesPrefix(vs: seq<nat>, i: nat, row: nat -> seq<nat>)
    requires i < |vs|
    ensures Images(vs[..i + 1], row) == Images(vs[..i], row) + row(vs[i])
  {
    ImagesSnoc(vs[..i], vs[i], row);
    assert vs[..i + 1] == vs[..i] + [vs[i]];
  }

  /** The nested loops give the deduplicated images. */
  method ExpandAddresses(ips: seq<Ip>, targets: seq<Network>, v6: bool) returns (expanded: seq<Ip>)
    requires (forall i :: 0 <= i < |ips| ==> Family(ips[i], v6)) && OneFamily(targets, v6)
    ensures expanded == AsIps(Expanded(ValuesOf(ips), targets))
  {
    expanded := [];
    var seen: set<Ip> := {};
    ghost var done: seq<nat> := [];
    for i := 0 to |ips|
      invariant done == Images(ValuesOf(ips)[..i], RowOf(targets)) && expanded == Dedup(AsIps(done))
      invariant forall x :: x in seen <==> x in expanded
    {
      var row := MapRow(ips[i], targets, v6);
      ImagesPrefix(ValuesOf(ips), i, RowOf(targets));
      AsIpsConcat(done, Row(ips[i].value, targets));
      expanded, seen := AppendUnseen(row, AsIps(done), expanded, seen);
      done := done + Row(ips[i].value, targets);
    }
    assert ValuesOf(ips)[..|ips|] == ValuesOf(ips);
    DedupAsIps(done);
  }

  // ---------- Rewriting an answer ----------

  datatype Rule = Rule(matchTags: set<string>, excludeTags: set<string>, v4: seq<Network>, v6: seq<Network>) {
    function Targets(isV6: bool): seq<Network> { if isV6 then v6 else v4 }
    predicate Applies(tags: set<string>, isV6: bool) {
      matchTags * tags != {} && excludeTags * tags == {} && Targets(isV6) != []
    }
  }

  /** An answer to an address query: its family, whether it is a successful one with an rrset, and its addresses. */
  datatype AddressAnswer = AddressAnswer(isV6: bool, normal: bool, addresses: seq<Ip>)

  ghost predicate WellFormed(rules: seq<Rule>, answer: AddressAnswer) {
    && (forall i :: 0 <= i < |answer.addresses| ==> Family(answer.addresses[i], answer.isV6))
    && (forall r :: 0 <= r < |rules| ==> OneFamily(rules[r].Targets(answer.isV6), answer.isV6))
  }

  /** The first rule whose tags match and that has targets of the family. */
  function MatchRule(rules: seq<Rule>, tags: set<string>, isV6: bool): (r: Option<nat>)
    ensures r.Some? ==> r.value < |rules| && rules[r.value].Applies(tags, isV6)
    ensures r.Some? ==> forall j :: 0 <= j < r.value ==> !rules[j].Applies(tags, isV6)
    ensures r.None? ==> forall j :: 0 <= j < |rules| ==> !rules[j].Applies(tags, isV6)
  {
    if rules == [] then None
    else if rules[0].Applies(tags, isV6) then Some(0)
    else
      var rest := MatchRule(rules[1..], tags, isV6);
      if rest.None? then None else Some(rest.value + 1)
  }

  predicate Eligible(skip: set<string>, answer: AddressAnswer, tags: set<string>) {
    tags != {} && skip * tags == {} && answer.normal && answer.addresses != []
  }

  /** The targets that apply to the answer; none when it is left alone. */
  function AppliedTargets(rules: seq<Rule>, skip: set<string>, answer: AddressAnswer, tags: set<string>): seq<Network> {
    var m := MatchRule(rules, tags, answer.isV6);
    if !Eligible(skip, answer, tags) || m.None? then [] else rules[m.value].Targets(answer.isV6)
  }

  /** The rule's tags and targets: a matching tag, no excluded one, and a target of the family. */
  ghost predicate Suits(rule: Rule, tags: set<string>, isV6: bool) {
    && (exists t :: t in rule.matchTags && t in tags) && (forall t :: t in rule.excludeTags ==> t !in tags)
    && (if isV6 then rule.v6 != [] else rule.v4 != [])
  }

  /**
    An answer is left alone exactly when the request has no tags or a skipped one, it is not a successful address
    answer with addresses, or no rule suits it; else it gets the targets of the first rule that does.
   */
  lemma LeftAloneIff(rules: seq<Rule>, skip: set<string>, answer: AddressAnswer, tags: set<string>)
    ensures AppliedTargets(rules, skip, answer, tags) == [] <==>
      || tags == {} || (exists t :: t in skip && t in tags) || !answer.normal || answer.addresses == []
      || forall i :: 0 <= i < |rules| ==> !Suits(rules[i], tags, answer.isV6)
    ensures AppliedTargets(rules, skip, answer, tags) != [] ==>
      exists i :: 0 <= i < |rules| && Suits(rules[i], tags, answer.isV6)
        && (forall j :: 0 <= j < i ==> !Suits(rules[j], tags, answer.isV6))
        && AppliedTargets(rules, skip, answer, tags) == if answer.isV6 then rules[i].v6 else rules[i].v4
  {
    forall i | 0 <= i < |rules|
      ensures rules[i].Applies(tags, answer.isV6) <==> Suits(rules[i], tags, answer.isV6)
    {
      SuitsIff(rules[i], tags, answer.isV6);
    }
    CommonTag(skip, tags);
  }

  lemma CommonTag(a: set<string>, b: set<string>)
    ensures a * b != {} <==> exists t :: t in a && t in b
  {
    if t :| t in a && t in b { assert t in a * b; }
    if t :| t in a * b { assert t in a && t in b; }
  }

  lemma SuitsIff(rule: Rule, tags: set<string>, isV6: bool)
    ensures rule.Applies(tags, isV6) <==> Suits(rule, tags, isV6)
  {
    CommonTag(rule.matchTags, tags);
    CommonTag(rule.excludeTags, tags);
  }

  /** Some address is not of the family, so no rrset of the family can be made of the list. */
  ghost predicate HasOther(ips: seq<Ip>, v6: bool) {
    exists i :: 0 <= i < |ips| && !Family(ips[i], v6)
  }

  /** The rewritten answer; None when the new rrset cannot be built. */
  ghost function Replaced(rules: seq<Rule>, skip: set<string>, answer: AddressAnswer, tags: set<string>)
    : (r: Option<AddressAnswer>)
  {
    var targets := AppliedTargets(rules, skip, answer, tags);
    var expanded := AsIps(Expanded(ValuesOf(answer.addresses), targets));
    if targets == [] then Some(answer)
    else if HasOther(expanded, answer.isV6) then None
    else Some(answer.(addresses := expanded))
  }

  /** Makes an rrset of the family from the addresses, or fails on the first of the other family. */
  method BuildRRset(ips: seq<Ip>, v6: bool) returns (ok: bool)
    ensures ok <==> !HasOther(ips, v6)
  {
    for i := 0 to |ips|
      invariant forall j :: 0 <= j < i ==> Family(ips[j], v6)
    {
      if ips[i].V6? != v6 {
        return false;
      }
    }
    return true;
  }

  /** What a rule's targets make of the answer. */
  method ReplaceBy(targets: seq<Network>, answer: AddressAnswer) returns (r: Option<AddressAnswer>, changed: bool)
    requires (forall i :: 0 <= i < |answer.addresses| ==> Family(answer.addresses[i], answer.isV6))
    requires OneFamily(targets, answer.isV6)
    ensures var expanded := AsIps(Expanded(ValuesOf(answer.addresses), targets));
      r == if HasOther(expanded, answer.isV6) then None else Some(answer.(addresses := expanded))
    ensures changed <==> r.Some? && r.value != answer
  {
    var replaced := ExpandAddresses(answer.addresses, targets, answer.isV6);
    if replaced == answer.addresses {
      return Some(answer), false;
    }
    var ok := BuildRRset(replaced, answer.isV6);
    return if ok then Some(answer.(addresses := replaced)) else None, ok;
  }

  method ReplaceAnswer(rules: seq<Rule>, skip: set<string>, answer: AddressAnswer, tags: set<string>)
    returns (r: Option<AddressAnswer>, changed: bool)
    requires WellFormed(rules, answer)
    ensures r == Replaced(rules, skip, answer, tags) && (changed <==> r.Some? && r.value != answer)
  {
    if tags == {} || skip * tags != {} || !answer.normal || answer.addresses == [] {
      return Some(answer), false;
    }
    for i := 0 to |rules|
      invariant forall j :: 0 <= j < i ==> !rules[j].Applies(tags, answer.isV6)
    {
      if rules[i].matchTags * tags == {} {
        continue;
      }
      if rules[i].excludeTags * tags != {} {
        continue;
      }
      var targets := rules[i].Targets(answer.isV6);
      if targets != [] {
        assert MatchRule(rules, tags, answer.isV6) == Some(i);
        assert AppliedTargets(rules, skip, answer, tags) == targets;
        r, changed := ReplaceBy(targets, answer);
        return;
      }
    }
    return Some(answer), false;
  }

  // ---------- When rewriting fails ----------

  /** Some address has an image below 2^32. */
  ghost predicate FallsBelow(ips: seq<Ip>, targets: seq<Network>) {
    exists i, k :: 0 <= i < |ips| && 0 <= k < |targets| && Place(ips[i].value, targets[k]) < Pow2(32)
  }

  lemma OtherFalls(ips: seq<Ip>, targets: seq<Network>, v6: bool)
    requires OneFamily(targets, v6) && HasOther(AsIps(Expanded(ValuesOf(ips), targets)), v6)
    ensures v6 && FallsBelow(ips, targets)
  {
    var vs := ValuesOf(ips);
    var e := Expanded(vs, targets);
    var j :| 0 <= j < |e| && !Family(AsIps(e)[j], v6);
    ExpansionIsExact(vs, targets, e[j]);
    var i, k :| 0 <= i < |vs| && 0 <= k < |targets| && e[j] == Place(vs[i], targets[k]);
    PlaceLandsInTarget(vs[i], targets[k]);
    assert Place(ips[i].value, targets[k]) == e[j];
  }

  lemma FallsToOther(ips: seq<Ip>, targets: seq<Network>)
    requires FallsBelow(ips, targets)
    ensures HasOther(AsIps(Expanded(ValuesOf(ips), targets)), true)
  {
    var vs := ValuesOf(ips);
    var e := Expanded(vs, targets);
    var i, k :| 0 <= i < |ips| && 0 <= k < |targets| && Place(ips[i].value, targets[k]) < Pow2(32);
    var z := Place(vs[i], targets[k]);
    ExpansionIsExact(vs, targets, z);
    var j :| 0 <= j < |e| && e[j] == z;
    assert !Family(AsIps(e)[j], true);
  }

  /** Rewriting fails exactly when a rule applies and takes an IPv6 address to a value below 2^32. */
  lemma ReplacementFailsIff(rules: seq<Rule>, skip: set<string>, answer: AddressAnswer, tags: set<string>)
    requires WellFormed(rules, answer)
    ensures Replaced(rules, skip, answer, tags).None? <==>
      answer.isV6 && FallsBelow(answer.addresses, AppliedTargets(rules, skip, answer, tags))
  {
    var targets := AppliedTargets(rules, skip, answer, tags);
    if Replaced(rules, skip, answer, tags).None? {
      OtherFalls(answer.addresses, targets, answer.isV6);
    }
    if answer.isV6 && FallsBelow(answer.addresses, targets) {
      FallsToOther(answer.addresses, targets);
    }
  }

  lemma BelowTarget(v: nat)
    ensures Network(true, 0, 96).Valid() && Place(v, Network(true, 0, 96)) < Pow2(32)
  {
    assert HostSize(Network(true, 0, 96)) == Pow2(32);
  }

  /** An ordinary IPv6 address and a target network below 2^32. */
  lemma ReplacementCanFail()
    ensures var rule := Rule({"tag"}, {}, [], [Network(true, 0, 96)]);
      var answer := AddressAnswer(true, true, [V6(Pow2(32))]);
      WellFormed([rule], answer) && Replaced([rule], {}, answer, {"tag"}).None?
  {
    var target := Network(true, 0, 96);
    var rule := Rule({"tag"}, {}, [], [target]);
    var answer := AddressAnswer(true, true, [V6(Pow2(32))]);
    assert OneFamily(rule.Targets(true), true);
    assert rule.matchTags * {"tag"} == {"tag"};
    assert MatchRule([rule], {"tag"}, true) == Some(0);
    BelowTarget(answer.addresses[0].value);
    ReplacementFailsIff([rule], {}, answer, {"tag"});
  }

  // ---------- The second pass ----------

  lemma RoundTrip(vs: seq<nat>, v6: bool)
    requires !HasOther(AsIps(vs), v6)
    ensures ValuesOf(AsIps(vs)) == vs
    ensures forall i :: 0 <= i < |vs| ==> Family(AsIps(vs)[i], v6)
  {
  }

  /**
    After a rewrite that succeeded, the pass made again at the response stage changes nothing exactly when
    expanding the values again gives the identical list.
   */
  lemma SecondPassIff(rules: seq<Rule>, skip: set<string>, answer: AddressAnswer, tags: set<string>)
    requires WellFormed(rules, answer) && Replaced(rules, skip, answer, tags).Some?
    ensures var once := Replaced(rules, skip, answer, tags).value;
      var targets := AppliedTargets(rules, skip, answer, tags);
      var e := Expanded(ValuesOf(answer.addresses), targets);
      targets != [] ==> (Replaced(rules, skip, once, tags) == Some(once) <==> Expanded(e, targets) == e)
    ensures AppliedTargets(rules, skip, answer, tags) == [] ==> Replaced(rules, skip, answer, tags) == Some(answer)
  {
    var targets := AppliedTargets(rules, skip, answer, tags);
    if targets != [] {
      var e := Expanded(ValuesOf(answer.addresses), targets);
      TwiceIs(rules, skip, answer, tags);
      if AsIps(Expanded(e, targets)) == AsIps(e) {
        AsIpsInjective(Expanded(e, targets), e);
      }
    }
  }

  lemma AsIpsInjective(a: seq<nat>, b: seq<nat>)
    requires AsIps(a) == AsIps(b)
    ensures a == b
  {
    forall i | 0 <= i < |a| ensures a[i] == b[i] {
      assert AsIps(a)[i] == AsIps(b)[i];
    }
  }

  /** When the applied targets are closed, a second pass has no address the first did not have. */
  lemma SecondPassAddsNothing(rules: seq<Rule>, skip: set<string>, answer: AddressAnswer, tags: set<string>, ip: Ip)
    requires WellFormed(rules, answer) && Replaced(rules, skip, answer, tags).Some?
    requires Closed(AppliedTargets(rules, skip, answer, tags))
    ensures var once := Replaced(rules, skip, answer, tags).value;
      var twice := Replaced(rules, skip, once, tags);
      twice.Some? && ip in twice.value.addresses ==> ip in once.addresses
  {
    var targets := AppliedTargets(rules, skip, answer, tags);
    var e := Expanded(ValuesOf(answer.addresses), targets);
    SecondPassIff(rules, skip, answer, tags);
    if targets != [] {
      TwiceIs(rules, skip, answer, tags);
      var twice := AsIps(Expanded(e, targets));
      if ip in twice {
        var i :| 0 <= i < |twice| && twice[i] == ip;
        var v := Expanded(e, targets)[i];
        ClosedAddsNothing(ValuesOf(answer.addresses), targets, answer.isV6, v);
        AsIpsMembers(e, v);
      }
    }
  }

  /** What a second pass comes to. */
  lemma TwiceIs(rules: seq<Rule>, skip: set<string>, answer: AddressAnswer, tags: set<string>)
    requires WellFormed(rules, answer) && Replaced(rules, skip, answer, tags).Some?
    requires AppliedTargets(rules, skip, answer, tags) != []
    ensures var once := Replaced(rules, skip, answer, tags).value;
      var targets := AppliedTargets(rules, skip, answer, tags);
      var e := Expanded(ValuesOf(answer.addresses), targets);
      var twice := AsIps(Expanded(e, targets));
      && once.addresses == AsIps(e)
      && Replaced(rules, skip, once, tags) ==
           if HasOther(twice, answer.isV6) then None else Some(answer.(addresses := twice))
  {
    var targets := AppliedTargets(rules, skip, answer, tags);
    var e := Expanded(ValuesOf(answer.addresses), targets);
    RoundTrip(e, answer.isV6);
    ExpansionIsNotEmpty(ValuesOf(answer.addresses), targets);
    assert AppliedTargets(rules, skip, answer.(addresses := AsIps(e)), tags) == targets;
  }

  /** The second pass changes nothing when the applied targets are closed and descend. */
  lemma SecondPassIsNoop(rules: seq<Rule>, skip: set<string>, answer: AddressAnswer, tags: set<string>)
    requires WellFormed(rules, answer) && Replaced(rules, skip, answer, tags).Some?
    requires var targets := AppliedTargets(rules, skip, answer, tags); Closed(targets) && Descends(targets)
    ensures var once := Replaced(rules, skip, answer, tags).value; Replaced(rules, skip, once, tags) == Some(once)
  {
    SecondPassIff(rules, skip, answer, tags);
    DescendingSettles(ValuesOf(answer.addresses), AppliedTargets(rules, skip, answer, tags), answer.isV6);
  }
}
