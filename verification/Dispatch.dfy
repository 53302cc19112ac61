/**
  Dispatching a request to a group of targets, where a target is an upstream or another group.
  Whatever the arrival order at every level, nested dispatching has exactly the outcomes of
  dispatching once over all the leaves.
 */
module Dispatch {
  import opened Prelude
  import opened GroupConfig
  import opened Messages

  datatype Failure = NxDomain | OtherError(text: string)
  datatype UpstreamResult = UpstreamResult(
    upstreamName: Name, durationMs: real, answer: Option<Answer>, error: Option<Failure>,
    tags: set<string>, collected: seq<UpstreamResult>)

  /** What awaiting an upstream resolver gives: a result, or an exception. */
  datatype LeafOutcome = Returned(result: UpstreamResult) | Raised(error: Failure)

  function DefaultResult(message: string): (r: UpstreamResult) {
    UpstreamResult("unknown", 0.0, None, Some(OtherError(message)), {}, [])
  }

  // ---------- Which result is preferred ----------

  datatype Kind = Success | Nx | Failed

  function KindOf(r: UpstreamResult): (k: Kind) {
    if r.answer.Some? then Success else if r.error == Some(NxDomain) then Nx else Failed
  }

  function KindRank(r: UpstreamResult): nat {
    match KindOf(r)
    case Success => 0
    case Nx => 1
    case Failed => 2
  }

  /** Successes before NXDOMAIN before other failures; waiting for all also compares the durations of successes. */
  predicate AtLeast(st: Strategy, x: UpstreamResult, y: UpstreamResult) {
    || KindRank(x) < KindRank(y)
    || (KindRank(x) == KindRank(y) && (st.Race? || KindRank(x) != 0 || x.durationMs <= y.durationMs))
  }

  /** i is the first of the results that no other result beats. */
  ghost predicate IsFirstBest(st: Strategy, rs: seq<UpstreamResult>, i: int) {
    && 0 <= i < |rs|
    && (forall j :: 0 <= j < |rs| ==> AtLeast(st, rs[i], rs[j]))
    && (forall j :: 0 <= j < i ==> !AtLeast(st, rs[j], rs[i]))
  }

  function FirstBest(st: Strategy, rs: seq<UpstreamResult>): (i: nat)
    requires rs != []
    ensures IsFirstBest(st, rs, i)
  {
    var n := |rs| - 1;
    if n == 0 then 0
    else
      var b := FirstBest(st, rs[..n]);
      if AtLeast(st, rs[b], rs[n]) then b else n
  }

  lemma FirstBestUnique(st: Strategy, rs: seq<UpstreamResult>, i: nat, j: nat)
    requires IsFirstBest(st, rs, i) && IsFirstBest(st, rs, j)
    ensures i == j
  {
    assert AtLeast(st, rs[i], rs[j]) && AtLeast(st, rs[j], rs[i]);
  }

  const ALL_FAILED := "all upstreams failed"

  /** The reference outcome of one group, given its targets' results in order of arrival. */
  function GroupOutcome(st: Strategy, arrivals: seq<UpstreamResult>): (r: UpstreamResult) {
    var chosen := if arrivals == [] then DefaultResult(ALL_FAILED) else arrivals[FirstBest(st, arrivals)];
    if st.WaitAll? then chosen.(collected := arrivals) else chosen
  }

  // ---------- The loops of the strategies ----------

  ghost predicate IsFirstOf(rs: seq<UpstreamResult>, k: Kind, r: UpstreamResult) {
    exists i :: 0 <= i < |rs| && rs[i] == r && KindOf(r) == k && forall j :: 0 <= j < i ==> KindOf(rs[j]) != k
  }

  ghost predicate Occurs(rs: seq<UpstreamResult>, k: Kind) {
    exists i :: 0 <= i < |rs| && KindOf(rs[i]) == k
  }

  method PickFailureResult(results: seq<UpstreamResult>, message: string) returns (r: UpstreamResult)
    ensures Occurs(results, Nx) ==> IsFirstOf(results, Nx, r)
    ensures !Occurs(results, Nx) && Occurs(results, Failed) ==> IsFirstOf(results, Failed, r)
    ensures !Occurs(results, Nx) && !Occurs(results, Failed) ==>
      r == DefaultResult(message) && r.answer.None? && r.error == Some(OtherError(message))
  {
    var firstError: Option<UpstreamResult> := None;
    var firstNx: Option<UpstreamResult> := None;
    for i := 0 to |results|
      invariant firstNx.None? ==> !Occurs(results[..i], Nx)
      invariant firstNx.Some? ==> IsFirstOf(results, Nx, firstNx.value)
      invariant firstError.None? ==> !Occurs(results[..i], Failed)
      invariant firstError.Some? ==> IsFirstOf(results, Failed, firstError.value)
    {
      assert results[..i + 1] == results[..i] + [results[i]];
      assert forall j :: 0 <= j < i ==> results[j] == results[..i][j];
      var result := results[i];
      if result.answer.Some? {
        continue;
      }
      if result.error == Some(NxDomain) {
        if firstNx.None? {
          firstNx := Some(result);
        }
        continue;
      }
      if firstError.None? {
        firstError := Some(result);
      }
    }
    assert results[..|results|] == results;
    if firstNx.Some? {
      assert exists i :: 0 <= i < |results| && KindOf(results[i]) == Nx;
      return firstNx.value;
    }
    if firstError.Some? { return firstError.value; }
    return DefaultResult(message);
  }

  /** Without a success, the failure that is picked is the first best result, under either strategy. */
  lemma PickedFailureIsBest(st: Strategy, rs: seq<UpstreamResult>, r: UpstreamResult)
    requires rs != [] && forall j :: 0 <= j < |rs| ==> KindOf(rs[j]) != Success
    requires Occurs(rs, Nx) ==> IsFirstOf(rs, Nx, r)
    requires !Occurs(rs, Nx) && Occurs(rs, Failed) ==> IsFirstOf(rs, Failed, r)
    ensures r == rs[FirstBest(st, rs)]
  {
    if !Occurs(rs, Nx) {
      assert KindOf(rs[0]) == Failed;
    }
    var k := if Occurs(rs, Nx) then Nx else Failed;
    var i :| 0 <= i < |rs| && rs[i] == r && KindOf(r) == k && forall j :: 0 <= j < i ==> KindOf(rs[j]) != k;
    assert IsFirstBest(st, rs, i);
    FirstBestUnique(st, rs, i, FirstBest(st, rs));
  }

  /** The coordinator of a race: the first arriving success wins and cancels the rest. */
  method RaceCoordinate(arrivals: seq<UpstreamResult>) returns (r: UpstreamResult)
    ensures r == GroupOutcome(Race, arrivals)
  {
    var winner: Option<UpstreamResult> := None;
    var failures: seq<UpstreamResult> := [];
    var i := 0;
    while i < |arrivals|
      invariant 0 <= i <= |arrivals| && winner.None? && failures == arrivals[..i]
      invariant forall j :: 0 <= j < i ==> KindOf(arrivals[j]) != Success
    {
      if arrivals[i].answer.Some? {
        winner := Some(arrivals[i]);
        break;
      }
      failures := failures + [arrivals[i]];
      i := i + 1;
    }
    if winner.Some? {
      assert IsFirstBest(Race, arrivals, i);
      FirstBestUnique(Race, arrivals, i, FirstBest(Race, arrivals));
      return winner.value;
    }
    assert failures == arrivals;
    r := PickFailureResult(failures, ALL_FAILED);
    if arrivals != [] {
      PickedFailureIsBest(Race, arrivals, r);
    }
  }

  /** Waiting for all: the fastest success, ties to the earliest arrival, else the picked failure. */
  method WaitAllCollect(results: seq<UpstreamResult>) returns (r: UpstreamResult)
    ensures r == GroupOutcome(WaitAll, results)
  {
    var fastest: Option<nat> := None;
    for i := 0 to |results|
      invariant fastest.None? ==> forall j :: 0 <= j < i ==> KindOf(results[j]) != Success
      invariant fastest.Some? ==> fastest.value < i && KindOf(results[fastest.value]).Success?
      invariant fastest.Some? ==> IsFirstBest(WaitAll, results[..i], fastest.value)
    {
      assert results[..i + 1] == results[..i] + [results[i]];
      if results[i].answer.Some? && (fastest.None? || results[i].durationMs < results[fastest.value].durationMs) {
        fastest := Some(i);
      }
    }
    assert results[..|results|] == results;
    if fastest.Some? {
      FirstBestUnique(WaitAll, results, fastest.value, FirstBest(WaitAll, results));
      return results[fastest.value].(collected := results);
    }
    r := PickFailureResult(results, ALL_FAILED);
    if results != [] {
      PickedFailureIsBest(WaitAll, results, r);
    }
    r := r.(collected := results);
  }

  // ---------- Trees of groups, arrival orders ----------

  datatype Tree = Leaf(target: Name, result: UpstreamResult) | Node(children: seq<Tree>)

  /** The order in which the results of a node's children arrive, and the orders below. */
  datatype Schedule = Schedule(order: seq<nat>, parts: seq<Schedule>)

  function Upto(n: nat): (s: seq<nat>)
    ensures |s| == n && forall i :: 0 <= i < n ==> s[i] == i
  {
    seq(n, i => i)
  }

  /** A permutation of 0, ..., n - 1. */
  ghost predicate IsOrder(order: seq<nat>, n: nat) {
    |order| == n && (forall k :: 0 <= k < n ==> order[k] < n) && multiset(order) == multiset(Upto(n))
  }

  lemma OrderCovers(order: seq<nat>, n: nat, i: nat) returns (k: nat)
    requires IsOrder(order, n) && i < n
    ensures k < n && order[k] == i
  {
    assert Upto(n)[i] in multiset(order);
    k :| 0 <= k < |order| && order[k] == i;
  }

  ghost predicate Fits(t: Tree, s: Schedule) {
    t.Node? ==>
      && IsOrder(s.order, |t.children|) && |s.parts| == |t.children|
      && forall i :: 0 <= i < |t.children| ==> Fits(t.children[i], s.parts[i])
  }

  ghost function Pick(rs: seq<UpstreamResult>, indices: seq<nat>): (a: seq<UpstreamResult>)
    requires Within(indices, |rs|)
    ensures |a| == |indices| && forall k :: 0 <= k < |a| ==> a[k] == rs[indices[k]]
  {
    seq(|indices|, k requires 0 <= k < |indices| => rs[indices[k]])
  }

  /** The results in order of arrival. */
  ghost function Arrange(rs: seq<UpstreamResult>, order: seq<nat>): (a: seq<UpstreamResult>)
    requires IsOrder(order, |rs|)
  {
    Pick(rs, order)
  }

  ghost function ChildResults(st: Strategy, t: Tree, s: Schedule): (rs: seq<UpstreamResult>)
    requires t.Node? && Fits(t, s)
    ensures |rs| == |t.children|
    ensures forall i :: 0 <= i < |rs| ==> rs[i] == TreeResult(st, t.children[i], s.parts[i])
    decreases t, 0
  {
    seq(|t.children|, i requires 0 <= i < |t.children| => TreeResult(st, t.children[i], s.parts[i]))
  }

  ghost function TreeResult(st: Strategy, t: Tree, s: Schedule): (r: UpstreamResult)
    requires Fits(t, s)
    decreases t, 1
  {
    match t
    case Leaf(_, result) => result
    case Node(_) => GroupOutcome(st, Arrange(ChildResults(st, t, s), s.order))
  }

  ghost function Leaves(t: Tree): (ls: set<UpstreamResult>) {
    match t
    case Leaf(_, result) => {result}
    case Node(cs) => set i, x | 0 <= i < |cs| && x in Leaves(cs[i]) :: x
  }

  ghost predicate NoEmptyGroup(t: Tree) {
    t.Node? ==> t.children != [] && forall i :: 0 <= i < |t.children| ==> NoEmptyGroup(t.children[i])
  }

  /** Waiting for all overwrites the `collected` field of what it returns; everything else is kept. */
  function Norm(st: Strategy, r: UpstreamResult): (x: UpstreamResult) {
    if st.WaitAll? then r.(collected := []) else r
  }

  /** x is, up to Norm, one of the results and no result beats it. */
  ghost predicate Preferred(st: Strategy, ls: set<UpstreamResult>, x: UpstreamResult) {
    && (exists l :: l in ls && Norm(st, l) == Norm(st, x))
    && forall l :: l in ls ==> AtLeast(st, x, l)
  }

  lemma NormDecides(st: Strategy, x: UpstreamResult, y: UpstreamResult, z: UpstreamResult)
    requires Norm(st, x) == Norm(st, y)
    ensures AtLeast(st, x, z) <==> AtLeast(st, y, z)
    ensures AtLeast(st, z, x) <==> AtLeast(st, z, y)
  {
  }

  lemma ArrangedOutcome(st: Strategy, rs: seq<UpstreamResult>, order: seq<nat>) returns (i: nat)
    requires IsOrder(order, |rs|) && rs != []
    ensures i < |rs| && Norm(st, GroupOutcome(st, Arrange(rs, order))) == Norm(st, rs[i])
    ensures forall j :: 0 <= j < |rs| ==> AtLeast(st, rs[i], rs[j])
    ensures (forall j :: 0 <= j < |rs| ==> AtLeast(st, rs[order[0]], rs[j])) ==> i == order[0]
  {
    var a := Arrange(rs, order);
    var b := FirstBest(st, a);
    i := order[b];
    forall j | 0 <= j < |rs| ensures AtLeast(st, rs[i], rs[j]) {
      var k := OrderCovers(order, |rs|, j);
      assert AtLeast(st, a[b], a[k]);
    }
    if forall j :: 0 <= j < |rs| ==> AtLeast(st, rs[order[0]], rs[j]) {
      assert AtLeast(st, a[0], a[b]);
    }
  }

  /** Every run of nested dispatching returns a preferred leaf of the whole tree. */
  lemma {:induction false} NestedIsPreferred(st: Strategy, t: Tree, s: Schedule)
    requires Fits(t, s) && NoEmptyGroup(t)
    ensures Preferred(st, Leaves(t), TreeResult(st, t, s))
    decreases t
  {
    if t.Node? {
      var rs := ChildResults(st, t, s);
      var r := TreeResult(st, t, s);
      forall i | 0 <= i < |rs| ensures Preferred(st, Leaves(t.children[i]), rs[i]) {
        NestedIsPreferred(st, t.children[i], s.parts[i]);
      }
      var i := ArrangedOutcome(st, rs, s.order);
      var l :| l in Leaves(t.children[i]) && Norm(st, l) == Norm(st, rs[i]);
      assert l in Leaves(t) && Norm(st, l) == Norm(st, r);
      forall y | y in Leaves(t) ensures AtLeast(st, r, y) {
        var j :| 0 <= j < |t.children| && y in Leaves(t.children[j]);
        assert AtLeast(st, rs[i], rs[j]) && AtLeast(st, rs[j], y);
        NormDecides(st, r, rs[i], y);
      }
    }
  }

  /** The orders in which every result arrives in list order. */
  ghost function ListOrder(t: Tree): (s: Schedule)
    ensures Fits(t, s)
  {
    match t
    case Leaf(_, _) => Schedule([], [])
    case Node(cs) =>
      Schedule(Upto(|cs|), seq(|cs|, i requires 0 <= i < |cs| => ListOrder(cs[i])))
  }

  /** The order that lets child j arrive first. */
  ghost function Promote(j: nat, n: nat): (order: seq<nat>)
    requires j < n
    ensures IsOrder(order, n) && |order| == n && order[0] == j
  {
    var u := Upto(n);
    var rest := DropAt(u, j);
    assert multiset([j] + rest) == multiset{j} + multiset(rest);
    [j] + rest
  }

  /** Every preferred leaf is returned by some run. */
  lemma {:induction false} PreferredIsReached(st: Strategy, t: Tree, x: UpstreamResult) returns (s: Schedule)
    requires NoEmptyGroup(t) && x in Leaves(t) && Preferred(st, Leaves(t), x)
    ensures Fits(t, s) && Norm(st, TreeResult(st, t, s)) == Norm(st, x)
    decreases t
  {
    s := ListOrder(t);
    if t.Node? {
      var cs := t.children;
      var j :| 0 <= j < |cs| && x in Leaves(cs[j]);
      forall i | 0 <= i < |cs| ensures Leaves(cs[i]) <= Leaves(t) {}
      assert Norm(st, x) == Norm(st, x);
      var below := PreferredIsReached(st, cs[j], x);
      s := Schedule(Promote(j, |cs|), s.parts[j := below]);
      var rs := ChildResults(st, t, s);
      assert rs[j] == TreeResult(st, cs[j], below);
      forall i | 0 <= i < |rs| ensures AtLeast(st, rs[j], rs[i]) {
        ReachedBeats(st, t, x, rs[j], cs[i], s.parts[i]);
      }
      var i := ArrangedOutcome(st, rs, s.order);
    }
  }

  lemma ReachedBeats(st: Strategy, t: Tree, x: UpstreamResult, y: UpstreamResult, child: Tree, s: Schedule)
    requires Preferred(st, Leaves(t), x) && Norm(st, y) == Norm(st, x)
    requires NoEmptyGroup(child) && Fits(child, s) && Leaves(child) <= Leaves(t)
    ensures AtLeast(st, y, TreeResult(st, child, s))
  {
    NestedIsPreferred(st, child, s);
    PreferredBeats(st, Leaves(t), x, Leaves(child), TreeResult(st, child, s));
    NormDecides(st, x, y, TreeResult(st, child, s));
  }

  lemma PreferredBeats(st: Strategy, all: set<UpstreamResult>, x: UpstreamResult, some: set<UpstreamResult>,
      y: UpstreamResult)
    requires Preferred(st, all, x) && Preferred(st, some, y) && some <= all
    ensures AtLeast(st, x, y)
  {
  }

  ghost predicate Reaches(st: Strategy, t: Tree, x: UpstreamResult) {
    exists s :: Fits(t, s) && Norm(st, TreeResult(st, t, s)) == Norm(st, x)
  }

  /** The same leaves as direct targets of a single group. */
  ghost predicate IsFlatVersion(flat: Tree, t: Tree) {
    && flat.Node? && Leaves(flat) == Leaves(t)
    && forall i :: 0 <= i < |flat.children| ==> flat.children[i].Leaf?
  }

  /** Nesting changes nothing: over all arrival orders, nested and flat dispatching return the same results. */
  lemma NestedEqualsFlat(st: Strategy, t: Tree, flat: Tree, x: UpstreamResult)
    requires NoEmptyGroup(t) && IsFlatVersion(flat, t) && flat.children != []
    ensures Reaches(st, t, x) <==> Reaches(st, flat, x)
    ensures Reaches(st, t, x) <==> Preferred(st, Leaves(t), x)
  {
    ReachesIffPreferred(st, t, x);
    ReachesIffPreferred(st, flat, x);
  }

  lemma ReachesIffPreferred(st: Strategy, t: Tree, x: UpstreamResult)
    requires NoEmptyGroup(t)
    ensures Reaches(st, t, x) <==> Preferred(st, Leaves(t), x)
  {
    if Reaches(st, t, x) {
      var s :| Fits(t, s) && Norm(st, TreeResult(st, t, s)) == Norm(st, x);
      NestedIsPreferred(st, t, s);
      PreferredUpToNorm(st, Leaves(t), TreeResult(st, t, s), x);
    }
    if Preferred(st, Leaves(t), x) {
      var l :| l in Leaves(t) && Norm(st, l) == Norm(st, x);
      PreferredUpToNorm(st, Leaves(t), x, l);
      var s := PreferredIsReached(st, t, l);
    }
  }

  lemma PreferredUpToNorm(st: Strategy, ls: set<UpstreamResult>, x: UpstreamResult, y: UpstreamResult)
    requires Norm(st, x) == Norm(st, y) && Preferred(st, ls, x)
    ensures Preferred(st, ls, y)
  {
  }

  /**
    Nested racing: an answer exactly when some leaf answers, and then that leaf's own result;
    otherwise NXDOMAIN exactly when some leaf reports it.
   */
  lemma RaceFlattening(t: Tree, s: Schedule)
    requires Fits(t, s) && NoEmptyGroup(t)
    ensures var r := TreeResult(Race, t, s);
      && r in Leaves(t)
      && (KindOf(r) == Success <==> exists l :: l in Leaves(t) && KindOf(l) == Success)
      && (KindOf(r) == Nx <==>
            (forall l :: l in Leaves(t) ==> KindOf(l) != Success) && (exists l :: l in Leaves(t) && KindOf(l) == Nx))
  {
    NestedIsPreferred(Race, t, s);
    var r := TreeResult(Race, t, s);
    var l0 :| l0 in Leaves(t) && Norm(Race, l0) == Norm(Race, r);
    forall l | l in Leaves(t) ensures AtLeast(Race, r, l) {}
  }

  /** Nested waiting: a success is a leaf's, and no successful leaf of the whole tree was faster. */
  lemma WaitAllOptimality(t: Tree, s: Schedule)
    requires Fits(t, s) && NoEmptyGroup(t)
    ensures var r := TreeResult(WaitAll, t, s);
      && (exists l :: l in Leaves(t) && Norm(WaitAll, l) == Norm(WaitAll, r))
      && (KindOf(r) == Success <==> exists l :: l in Leaves(t) && KindOf(l) == Success)
      && (forall l :: l in Leaves(t) && KindOf(l) == Success ==> r.durationMs <= l.durationMs)
  {
    NestedIsPreferred(WaitAll, t, s);
    FastestSuccess(Leaves(t), TreeResult(WaitAll, t, s));
  }

  lemma FastestSuccess(ls: set<UpstreamResult>, r: UpstreamResult)
    requires Preferred(WaitAll, ls, r)
    ensures KindOf(r) == Success <==> exists l :: l in ls && KindOf(l) == Success
    ensures forall l :: l in ls && KindOf(l) == Success ==> r.durationMs <= l.durationMs
  {
  }

  ghost function DropAt(s: seq<nat>, p: nat): (r: seq<nat>)
    requires p < |s|
    ensures |r| == |s| - 1 && multiset(s) == multiset(r) + multiset{s[p]}
    ensures forall k :: 0 <= k < |r| ==> r[k] == s[if k < p then k else k + 1]
  {
    assert s == s[..p] + [s[p]] + s[p + 1..];
    s[..p] + s[p + 1..]
  }

  ghost predicate Within(indices: seq<nat>, n: nat) {
    forall k :: 0 <= k < |indices| ==> indices[k] < n
  }

  lemma PickWithout(rs: seq<UpstreamResult>, indices: seq<nat>, p: nat)
    requires Within(indices, |rs|) && p < |indices|
    ensures Within(DropAt(indices, p), |rs|)
    ensures multiset(Pick(rs, indices)) == multiset(Pick(rs, DropAt(indices, p))) + multiset{rs[indices[p]]}
  {
    var a := Pick(rs, indices);
    assert a == a[..p] + [a[p]] + a[p + 1..];
    assert Pick(rs, DropAt(indices, p)) == a[..p] + a[p + 1..];
  }

  lemma {:induction false} PickKeepsAll(rs: seq<UpstreamResult>, x: seq<nat>, y: seq<nat>)
    requires multiset(x) == multiset(y) && Within(x, |rs|) && Within(y, |rs|)
    ensures multiset(Pick(rs, x)) == multiset(Pick(rs, y))
  {
    assert |multiset(x)| == |multiset(y)|;
    if x == [] {
      assert y == [];
    } else {
      var p := OccursIn(x[0], x, y);
      PickWithout(rs, x, 0);
      PickWithout(rs, y, p);
      SameWithout(x, 0, y, p);
      PickKeepsAll(rs, DropAt(x, 0), DropAt(y, p));
    }
  }

  lemma OccursIn(v: nat, x: seq<nat>, y: seq<nat>) returns (p: nat)
    requires multiset(x) == multiset(y) && v in x
    ensures p < |y| && y[p] == v
  {
    assert v in multiset(y);
    p :| 0 <= p < |y| && y[p] == v;
  }

  lemma SameWithout(x: seq<nat>, i: nat, y: seq<nat>, p: nat)
    requires multiset(x) == multiset(y) && i < |x| && p < |y| && x[i] == y[p]
    ensures multiset(DropAt(x, i)) == multiset(DropAt(y, p))
  {
    assert multiset(DropAt(x, i)) == multiset(x) - multiset{x[i]};
    assert multiset(DropAt(y, p)) == multiset(y) - multiset{y[p]};
  }

  /** The result of waiting carries exactly one result per direct target of the group, whatever the order. */
  lemma CollectedIsOnePerTarget(t: Tree, s: Schedule)
    requires t.Node? && Fits(t, s)
    ensures multiset(TreeResult(WaitAll, t, s).collected) == multiset(ChildResults(WaitAll, t, s))
  {
    var rs := ChildResults(WaitAll, t, s);
    PickKeepsAll(rs, s.order, Upto(|rs|));
    assert Pick(rs, Upto(|rs|)) == rs;
  }

  // ---------- The recursion over an accepted configuration ----------

  /** Where in the tree of targets a dispatch happens: the child indices on the way down. */
  type Position = seq<nat>

  /**
    One run: what every resolver call gives, in which order the results of every group arrive, and the names
    plugins have registered resolvers under.
   */
  datatype Run = Run(world: Position -> LeafOutcome, order: (Position, nat) -> seq<nat>, custom: set<Name>)

  ghost predicate ValidRun(run: Run) {
    forall p, n: nat :: IsOrder(run.order(p, n), n)
  }

  /**
    A result inherits the request's tags; an exception, or a name that is neither an upstream nor a plugin's
    resolver, becomes a failed result.
   */
  function LeafResult(cfg: AppConfig, target: Name, at: Position, run: Run, tags: set<string>): (r: UpstreamResult) {
    if target !in cfg.UpstreamNames() && target !in run.custom then
      UpstreamResult(target, 0.0, None, Some(OtherError("KeyError")), tags, [])
    else
      match run.world(at)
      case Returned(result) => result.(tags := result.tags + tags)
      case Raised(error) => UpstreamResult(target, 0.0, None, Some(error), tags, [])
  }

  ghost predicate Ranked(cfg: AppConfig, rank: map<Name, nat>) {
    RanksOn(GraphOf(cfg), GraphOf(cfg).Keys, rank)
  }

  ghost function Height(cfg: AppConfig, rank: map<Name, nat>, target: Name): nat {
    if target in GroupMap(cfg.groups) && target in rank then 1 + rank[target] else 0
  }

  lemma TargetIsLower(cfg: AppConfig, rank: map<Name, nat>, group: Name, i: nat)
    requires Ranked(cfg, rank) && group in GroupMap(cfg.groups) && i < |GroupMap(cfg.groups)[group].upstreams|
    ensures Height(cfg, rank, GroupMap(cfg.groups)[group].upstreams[i]) < Height(cfg, rank, group)
  {
    GroupMapKeys(cfg);
    var t := GroupMap(cfg.groups)[group].upstreams[i];
    if t in GroupMap(cfg.groups) {
      assert Edge(GraphOf(cfg), group, t);
    }
    assert group in GraphOf(cfg).Keys;
  }

  ghost function Unfold(cfg: AppConfig, rank: map<Name, nat>, target: Name, at: Position, run: Run, tags: set<string>)
      : (t: Tree)
    requires Ranked(cfg, rank)
    ensures t.Node? <==> target in GroupMap(cfg.groups)
    decreases Height(cfg, rank, target)
  {
    if target in GroupMap(cfg.groups) then
      var targets := GroupMap(cfg.groups)[target].upstreams;
      Node(seq(|targets|, i requires 0 <= i < |targets| =>
        (TargetIsLower(cfg, rank, target, i); Unfold(cfg, rank, targets[i], at + [i], run, tags))))
    else Leaf(target, LeafResult(cfg, target, at, run, tags))
  }

  ghost function Orders(cfg: AppConfig, rank: map<Name, nat>, target: Name, at: Position, run: Run): (s: Schedule)
    requires Ranked(cfg, rank)
    decreases Height(cfg, rank, target)
  {
    if target in GroupMap(cfg.groups) then
      var targets := GroupMap(cfg.groups)[target].upstreams;
      Schedule(run.order(at, |targets|), seq(|targets|, i requires 0 <= i < |targets| =>
        (TargetIsLower(cfg, rank, target, i); Orders(cfg, rank, targets[i], at + [i], run))))
    else Schedule([], [])
  }

  lemma {:induction false} OrdersFit(cfg: AppConfig, rank: map<Name, nat>, target: Name, at: Position, run: Run,
      tags: set<string>)
    requires Ranked(cfg, rank) && ValidRun(run)
    ensures Fits(Unfold(cfg, rank, target, at, run, tags), Orders(cfg, rank, target, at, run))
    decreases Height(cfg, rank, target)
  {
    if target in GroupMap(cfg.groups) {
      var targets := GroupMap(cfg.groups)[target].upstreams;
      forall i | 0 <= i < |targets|
        ensures Fits(Unfold(cfg, rank, targets[i], at + [i], run, tags), Orders(cfg, rank, targets[i], at + [i], run))
      {
        TargetIsLower(cfg, rank, target, i);
        OrdersFit(cfg, rank, targets[i], at + [i], run, tags);
      }
    }
  }

  /** What dispatching `target` gives in this run, by the reference semantics of trees. */
  ghost function Expected(cfg: AppConfig, rank: map<Name, nat>, target: Name, st: Strategy, at: Position, run: Run,
      tags: set<string>): UpstreamResult
    requires Ranked(cfg, rank) && ValidRun(run)
  {
    OrdersFit(cfg, rank, target, at, run, tags);
    TreeResult(st, Unfold(cfg, rank, target, at, run, tags), Orders(cfg, rank, target, at, run))
  }

  /**
    The result is that of this resolver call: what it returned with the request's tags added, or a failure of the
    target with the very error it raised. What waiting for all collects is set by the group.
   */
  ghost predicate CameFrom(r: UpstreamResult, call: LeafOutcome, target: Name, tags: set<string>) {
    match call
    case Returned(x) =>
      && r.upstreamName == x.upstreamName && r.durationMs == x.durationMs
      && r.answer == x.answer && r.error == x.error && r.tags == x.tags + tags
    case Raised(e) =>
      r.upstreamName == target && r.durationMs == 0.0 && r.answer.None? && r.error == Some(e) && r.tags == tags
  }

  /** A resolver's own outcome when there is one for the target, else a failure of the target. */
  ghost predicate ResolvedAs(
    cfg: AppConfig, target: Name, run: Run, at: Position, tags: set<string>, r: UpstreamResult)
  {
    if target in cfg.UpstreamNames() || target in run.custom then
      && CameFrom(r, run.world(at), target, tags)
      && r.collected == if run.world(at).Returned? then run.world(at).result.collected else []
    else r.upstreamName == target && r.answer.None? && r.error.Some? && r.error != Some(NxDomain)
  }

  method Resolve(cfg: AppConfig, target: Name, at: Position, run: Run, tags: set<string>) returns (r: UpstreamResult)
    ensures r == LeafResult(cfg, target, at, run, tags) && ResolvedAs(cfg, target, run, at, tags, r)
  {
    if target !in cfg.UpstreamNames() && target !in run.custom {
      return UpstreamResult(target, 0.0, None, Some(OtherError("KeyError")), tags, []);
    }
    match run.world(at) {
      case Returned(result) => return result.(tags := result.tags + tags);
      case Raised(error) => return UpstreamResult(target, 0.0, None, Some(error), tags, []);
    }
  }

  /** A target is dispatched as a group when it names one, else resolved as an upstream. */
  method DispatchTarget(cfg: AppConfig, ghost rank: map<Name, nat>, target: Name, st: Strategy, at: Position,
      run: Run, tags: set<string>)
    returns (r: UpstreamResult)
    requires Ranked(cfg, rank) && ValidRun(run)
    ensures r == Expected(cfg, rank, target, st, at, run, tags)
    ensures target !in GroupMap(cfg.groups) ==> ResolvedAs(cfg, target, run, at, tags, r)
    decreases Height(cfg, rank, target), 3
  {
    if target in GroupMap(cfg.groups) {
      r := DispatchGroup(cfg, rank, target, st, at, run, tags);
    } else {
      r := Resolve(cfg, target, at, run, tags);
    }
  }

  /** A worker sends the result of dispatching its own target. */
  method RunWorker(cfg: AppConfig, ghost rank: map<Name, nat>, group: Name, i: nat, st: Strategy, at: Position,
      run: Run, tags: set<string>)
    returns (r: UpstreamResult)
    requires Ranked(cfg, rank) && ValidRun(run) && group in GroupMap(cfg.groups)
    requires i < |GroupMap(cfg.groups)[group].upstreams|
    ensures r == Expected(cfg, rank, GroupMap(cfg.groups)[group].upstreams[i], st, at + [i], run, tags)
    decreases Height(cfg, rank, group), 0
  {
    TargetIsLower(cfg, rank, group, i);
    r := DispatchTarget(cfg, rank, GroupMap(cfg.groups)[group].upstreams[i], st, at + [i], run, tags);
  }

  /** One worker per target of the group. */
  method RunWorkers(cfg: AppConfig, ghost rank: map<Name, nat>, group: Name, st: Strategy, at: Position, run: Run,
      tags: set<string>)
    returns (results: seq<UpstreamResult>)
    requires Ranked(cfg, rank) && ValidRun(run) && group in GroupMap(cfg.groups)
    ensures var targets := GroupMap(cfg.groups)[group].upstreams;
      |results| == |targets| &&
      forall k :: 0 <= k < |targets| ==> results[k] == Expected(cfg, rank, targets[k], st, at + [k], run, tags)
    decreases Height(cfg, rank, group), 1
  {
    var targets := GroupMap(cfg.groups)[group].upstreams;
    results := [];
    for i := 0 to |targets|
      invariant |results| == i
      invariant forall k :: 0 <= k < i ==> results[k] == Expected(cfg, rank, targets[k], st, at + [k], run, tags)
    {
      var result := RunWorker(cfg, rank, group, i, st, at, run, tags);
      results := results + [result];
    }
  }

  /** The receive stream yields the results in order of arrival. */
  method Receive(results: seq<UpstreamResult>, order: seq<nat>) returns (arrivals: seq<UpstreamResult>)
    requires IsOrder(order, |results|)
    ensures arrivals == Arrange(results, order)
  {
    arrivals := [];
    for k := 0 to |order|
      invariant |arrivals| == k
      invariant forall j :: 0 <= j < k ==> arrivals[j] == results[order[j]]
    {
      arrivals := arrivals + [results[order[k]]];
    }
  }

  lemma ExpectedOfGroup(cfg: AppConfig, rank: map<Name, nat>, group: Name, st: Strategy, at: Position, run: Run,
      tags: set<string>, results: seq<UpstreamResult>)
    requires Ranked(cfg, rank) && ValidRun(run) && group in GroupMap(cfg.groups)
    requires |results| == |GroupMap(cfg.groups)[group].upstreams|
    requires forall k :: 0 <= k < |results| ==>
      results[k] == Expected(cfg, rank, GroupMap(cfg.groups)[group].upstreams[k], st, at + [k], run, tags)
    ensures Expected(cfg, rank, group, st, at, run, tags)
      == GroupOutcome(st, Arrange(results, run.order(at, |results|)))
  {
    OrdersFit(cfg, rank, group, at, run, tags);
    var t := Unfold(cfg, rank, group, at, run, tags);
    var s := Orders(cfg, rank, group, at, run);
    assert results == ChildResults(st, t, s);
  }

  method DispatchGroup(cfg: AppConfig, ghost rank: map<Name, nat>, group: Name, st: Strategy, at: Position, run: Run,
      tags: set<string>)
    returns (r: UpstreamResult)
    requires Ranked(cfg, rank) && ValidRun(run) && group in GroupMap(cfg.groups)
    ensures r == Expected(cfg, rank, group, st, at, run, tags)
    decreases Height(cfg, rank, group), 2
  {
    var results := RunWorkers(cfg, rank, group, st, at, run, tags);
    var arrivals := Receive(results, run.order(at, |results|));
    ExpectedOfGroup(cfg, rank, group, st, at, run, tags, results);
    match st {
      case Race => r := RaceCoordinate(arrivals);
      case WaitAll => r := WaitAllCollect(arrivals);
    }
  }

  // ---------- From a request to its group ----------

  predicate Overlaps(tags: seq<string>, present: set<string>) {
    exists t :: t in tags && t in present
  }

  predicate Matches(rule: Rule, tags: set<string>, qtype: string) {
    && !(rule.excludeTags != [] && Overlaps(rule.excludeTags, tags))
    && !(rule.matchTags != [] && !Overlaps(rule.matchTags, tags))
    && !(rule.qtypes != [] && qtype !in rule.qtypes)
  }

  predicate Applies(rule: Rule, tags: set<string>, qtype: string) {
    rule.enabled && Matches(rule, tags, qtype)
  }

  ghost predicate FirstApplies(rules: seq<Rule>, i: nat, tags: set<string>, qtype: string)
    requires i < |rules|
  {
    Applies(rules[i], tags, qtype) && forall j :: 0 <= j < i ==> !Applies(rules[j], tags, qtype)
  }

  /** An empty or absent group name means the default group. */
  function TargetGroup(cfg: AppConfig, rule: Option<Rule>): Name {
    if rule.Some? && rule.value.upstreamGroup.Some? && rule.value.upstreamGroup.value != ""
    then rule.value.upstreamGroup.value else cfg.defaultGroup
  }

  function TargetStrategy(rule: Option<Rule>, defaultStrategy: Strategy): Strategy {
    if rule.Some? && rule.value.dispatcher.Some? then rule.value.dispatcher.value else defaultStrategy
  }

  /**
    A rule is passed over exactly when it is disabled, the request has one of its excluded tags, it names tags and
    the request has none of them, or it names query types and the request's is not among them.
   */
  lemma PassedOverIff(rule: Rule, tags: set<string>, qtype: string)
    ensures !Applies(rule, tags, qtype) <==>
      || !rule.enabled
      || (exists i :: 0 <= i < |rule.excludeTags| && rule.excludeTags[i] in tags)
      || (rule.matchTags != [] && forall i :: 0 <= i < |rule.matchTags| ==> rule.matchTags[i] !in tags)
      || (rule.qtypes != [] && forall i :: 0 <= i < |rule.qtypes| ==> rule.qtypes[i] != qtype)
  {
  }

  /** The rule is the first enabled one that matches, or none does. */
  ghost predicate Decides(rules: seq<Rule>, rule: Option<Rule>, tags: set<string>, qtype: string) {
    match rule
    case None => forall r :: r in rules ==> !Applies(r, tags, qtype)
    case Some(r) => exists i :: 0 <= i < |rules| && rules[i] == r && FirstApplies(rules, i, tags, qtype)
  }

  /** The first enabled rule that matches decides, and the group it leads to exists. */
  method SelectGroup(cfg: AppConfig, tags: set<string>, qtype: string) returns (group: Name, rule: Option<Rule>)
    requires Dispatchable(cfg)
    ensures group in GroupMap(cfg.groups)
    ensures Decides(cfg.rules, rule, tags, qtype) && group == TargetGroup(cfg, rule)
    ensures rule.None? ==> group == cfg.defaultGroup
    ensures rule.Some? ==> match rule.value.upstreamGroup
      case None => group == cfg.defaultGroup
      case Some(g) => group == if g == "" then cfg.defaultGroup else g
  {
    for i := 0 to |cfg.rules|
      invariant forall j :: 0 <= j < i ==> !Applies(cfg.rules[j], tags, qtype)
    {
      var r := cfg.rules[i];
      if Applies(r, tags, qtype) {
        assert r in cfg.rules;
        assert FirstApplies(cfg.rules, i, tags, qtype);
        return TargetGroup(cfg, Some(r)), Some(r);
      }
    }
    return cfg.defaultGroup, None;
  }

  /** Every leaf of the tree is a configured upstream. */
  ghost predicate LeavesConfigured(cfg: AppConfig, t: Tree) {
    match t
    case Leaf(target, _) => target in cfg.UpstreamNames()
    case Node(cs) => forall i :: 0 <= i < |cs| ==> LeavesConfigured(cfg, cs[i])
  }

  ghost predicate NoEmptyGroups(cfg: AppConfig) {
    forall g :: g in cfg.groups ==> g.upstreams != []
  }

  lemma {:induction false} UnfoldIsSound(cfg: AppConfig, rank: map<Name, nat>, target: Name, at: Position, run: Run,
      tags: set<string>)
    requires Dispatchable(cfg) && Ranked(cfg, rank)
    requires target in GroupMap(cfg.groups) || target in cfg.UpstreamNames()
    ensures LeavesConfigured(cfg, Unfold(cfg, rank, target, at, run, tags))
    ensures NoEmptyGroups(cfg) ==> NoEmptyGroup(Unfold(cfg, rank, target, at, run, tags))
    decreases Height(cfg, rank, target)
  {
    if target in GroupMap(cfg.groups) {
      var targets := GroupMap(cfg.groups)[target].upstreams;
      forall i | 0 <= i < |targets|
        ensures LeavesConfigured(cfg, Unfold(cfg, rank, targets[i], at + [i], run, tags))
        ensures NoEmptyGroups(cfg) ==> NoEmptyGroup(Unfold(cfg, rank, targets[i], at + [i], run, tags))
      {
        TargetIsLower(cfg, rank, target, i);
        UnfoldIsSound(cfg, rank, targets[i], at + [i], run, tags);
      }
    }
  }

  // ---------- The resolver calls of a dispatch ----------

  /** Following these child indices from a target leads to an upstream of this name. */
  ghost predicate LeadsTo(cfg: AppConfig, from: Name, path: Position, target: Name)
    decreases |path|
  {
    var groups := GroupMap(cfg.groups);
    if path == [] then from == target && from !in groups
    else from in groups && path[0] < |groups[from].upstreams|
         && LeadsTo(cfg, groups[from].upstreams[path[0]], path[1..], target)
  }

  lemma {:induction false} CallIsLeaf(
      cfg: AppConfig, rank: map<Name, nat>, from: Name, at: Position, run: Run, tags: set<string>,
      path: Position, target: Name)
    requires Ranked(cfg, rank) && LeadsTo(cfg, from, path, target)
    ensures LeafResult(cfg, target, at + path, run, tags) in Leaves(Unfold(cfg, rank, from, at, run, tags))
    decreases |path|
  {
    if path == [] {
      assert at + path == at;
    } else {
      var next := GroupMap(cfg.groups)[from].upstreams[path[0]];
      CallIsLeaf(cfg, rank, next, at + [path[0]], run, tags, path[1..], target);
      assert at + path == (at + [path[0]]) + path[1..];
      var t := Unfold(cfg, rank, from, at, run, tags);
      assert t.children[path[0]] == Unfold(cfg, rank, next, at + [path[0]], run, tags);
    }
  }

  lemma ChildUnfolds(
      cfg: AppConfig, rank: map<Name, nat>, from: Name, at: Position, run: Run, tags: set<string>, i: nat)
    requires Ranked(cfg, rank) && from in GroupMap(cfg.groups) && i < |GroupMap(cfg.groups)[from].upstreams|
    ensures var t := Unfold(cfg, rank, from, at, run, tags);
      && t.Node? && |t.children| == |GroupMap(cfg.groups)[from].upstreams|
      && t.children[i] == Unfold(cfg, rank, GroupMap(cfg.groups)[from].upstreams[i], at + [i], run, tags)
  {
  }

  lemma LeadsOn(cfg: AppConfig, from: Name, i: nat, rest: Position, target: Name)
    requires from in GroupMap(cfg.groups) && i < |GroupMap(cfg.groups)[from].upstreams|
    requires LeadsTo(cfg, GroupMap(cfg.groups)[from].upstreams[i], rest, target)
    ensures LeadsTo(cfg, from, [i] + rest, target)
  {
    assert ([i] + rest)[1..] == rest;
  }

  lemma LeafOfChild(
      cfg: AppConfig, rank: map<Name, nat>, from: Name, at: Position, run: Run, tags: set<string>, l: UpstreamResult)
    returns (i: nat)
    requires Ranked(cfg, rank) && from in GroupMap(cfg.groups) && l in Leaves(Unfold(cfg, rank, from, at, run, tags))
    ensures i < |GroupMap(cfg.groups)[from].upstreams|
    ensures l in Leaves(Unfold(cfg, rank, GroupMap(cfg.groups)[from].upstreams[i], at + [i], run, tags))
  {
    var t := Unfold(cfg, rank, from, at, run, tags);
    i :| 0 <= i < |t.children| && l in Leaves(t.children[i]);
    ChildUnfolds(cfg, rank, from, at, run, tags, i);
  }

  lemma {:induction false} LeafIsCall(
      cfg: AppConfig, rank: map<Name, nat>, from: Name, at: Position, run: Run, tags: set<string>, l: UpstreamResult)
    returns (path: Position, target: Name)
    requires Ranked(cfg, rank) && l in Leaves(Unfold(cfg, rank, from, at, run, tags))
    ensures LeadsTo(cfg, from, path, target) && l == LeafResult(cfg, target, at + path, run, tags)
    decreases Height(cfg, rank, from)
  {
    if from in GroupMap(cfg.groups) {
      var i := LeafOfChild(cfg, rank, from, at, run, tags, l);
      TargetIsLower(cfg, rank, from, i);
      var rest;
      rest, target := LeafIsCall(cfg, rank, GroupMap(cfg.groups)[from].upstreams[i], at + [i], run, tags, l);
      path := [i] + rest;
      LeadsOn(cfg, from, i, rest, target);
      ConcatAssociates(at, [i], rest);
    } else {
      path, target := [], from;
      assert at + path == at;
    }
  }

  /** In an accepted configuration every path leads to a configured upstream. */
  lemma {:induction false} CallsAreConfigured(cfg: AppConfig, from: Name, path: Position, target: Name)
    requires Dispatchable(cfg) && LeadsTo(cfg, from, path, target)
    requires from in GroupMap(cfg.groups) || from in cfg.UpstreamNames()
    ensures target in cfg.UpstreamNames()
    decreases |path|
  {
    if path != [] {
      CallsAreConfigured(cfg, GroupMap(cfg.groups)[from].upstreams[path[0]], path[1..], target);
    }
  }

  /** The resolver call at this position was made for this group and returned an answer. */
  ghost predicate Answers(cfg: AppConfig, group: Name, run: Run, path: Position, target: Name) {
    LeadsTo(cfg, group, path, target) && run.world(path).Returned? && run.world(path).result.answer.Some?
  }

  /** The resolver call at this position was made for this group and said that the name does not exist. */
  ghost predicate Denies(cfg: AppConfig, group: Name, run: Run, path: Position, target: Name) {
    && LeadsTo(cfg, group, path, target)
    && match run.world(path)
       case Returned(x) => x.answer.None? && x.error == Some(NxDomain)
       case Raised(e) => e == NxDomain
  }

  /** The dispatch's result, on the resolver calls made for the group. */
  ghost predicate IsOutcome(
    cfg: AppConfig, group: Name, st: Strategy, run: Run, tags: set<string>, r: UpstreamResult)
  {
    && (exists path, target :: LeadsTo(cfg, group, path, target) && CameFrom(r, run.world(path), target, tags))
    && (r.answer.Some? <==> exists path, target :: Answers(cfg, group, run, path, target))
    && (r.answer.None? ==>
          (r.error == Some(NxDomain) <==> exists path, target :: Denies(cfg, group, run, path, target)))
    && (st.WaitAll? ==> forall path, target :: Answers(cfg, group, run, path, target) ==>
          r.durationMs <= run.world(path).result.durationMs)
  }

  lemma PreferredCameFrom(
      cfg: AppConfig, rank: map<Name, nat>, group: Name, st: Strategy, run: Run, tags: set<string>, r: UpstreamResult)
    returns (path: Position, target: Name)
    requires Dispatchable(cfg) && Ranked(cfg, rank) && group in GroupMap(cfg.groups)
    requires Preferred(st, Leaves(Unfold(cfg, rank, group, [], run, tags)), r)
    ensures LeadsTo(cfg, group, path, target) && CameFrom(r, run.world(path), target, tags)
  {
    var l :| l in Leaves(Unfold(cfg, rank, group, [], run, tags)) && Norm(st, l) == Norm(st, r);
    path, target := LeafIsCall(cfg, rank, group, [], run, tags, l);
    assert [] + path == path;
    CallsAreConfigured(cfg, group, path, target);
  }

  lemma PreferredBeatsAnswer(
      cfg: AppConfig, rank: map<Name, nat>, group: Name, st: Strategy, run: Run, tags: set<string>, r: UpstreamResult,
      path: Position, target: Name)
    requires Dispatchable(cfg) && Ranked(cfg, rank) && group in GroupMap(cfg.groups)
    requires Preferred(st, Leaves(Unfold(cfg, rank, group, [], run, tags)), r) && Answers(cfg, group, run, path, target)
    ensures r.answer.Some? && (st.WaitAll? ==> r.durationMs <= run.world(path).result.durationMs)
  {
    CallIsLeaf(cfg, rank, group, [], run, tags, path, target);
    assert [] + path == path;
    CallsAreConfigured(cfg, group, path, target);
    var l := LeafResult(cfg, target, path, run, tags);
    assert AtLeast(st, r, l);
  }

  lemma PreferredBeatsDenial(
      cfg: AppConfig, rank: map<Name, nat>, group: Name, st: Strategy, run: Run, tags: set<string>, r: UpstreamResult,
      path: Position, target: Name)
    requires Dispatchable(cfg) && Ranked(cfg, rank) && group in GroupMap(cfg.groups)
    requires Preferred(st, Leaves(Unfold(cfg, rank, group, [], run, tags)), r) && Denies(cfg, group, run, path, target)
    ensures r.answer.None? ==> r.error == Some(NxDomain)
  {
    CallIsLeaf(cfg, rank, group, [], run, tags, path, target);
    assert [] + path == path;
    CallsAreConfigured(cfg, group, path, target);
    var l := LeafResult(cfg, target, path, run, tags);
    assert AtLeast(st, r, l);
  }

  lemma PreferredIsOutcome(
      cfg: AppConfig, rank: map<Name, nat>, group: Name, st: Strategy, run: Run, tags: set<string>, r: UpstreamResult)
    requires Dispatchable(cfg) && Ranked(cfg, rank) && group in GroupMap(cfg.groups)
    requires Preferred(st, Leaves(Unfold(cfg, rank, group, [], run, tags)), r)
    ensures IsOutcome(cfg, group, st, run, tags, r)
  {
    var p, t := PreferredCameFrom(cfg, rank, group, st, run, tags, r);
    if r.answer.Some? {
      assert Answers(cfg, group, run, p, t);
    } else if r.error == Some(NxDomain) {
      assert Denies(cfg, group, run, p, t);
    }
    forall path, target | Denies(cfg, group, run, path, target) ensures r.answer.None? ==> r.error == Some(NxDomain) {
      PreferredBeatsDenial(cfg, rank, group, st, run, tags, r, path, target);
    }
    forall path, target | Answers(cfg, group, run, path, target)
      ensures r.answer.Some? && (st.WaitAll? ==> r.durationMs <= run.world(path).result.durationMs)
    {
      PreferredBeatsAnswer(cfg, rank, group, st, run, tags, r, path, target);
    }
  }

  /**
    The dispatch of a request under an accepted configuration: the first matching rule decides group and
    strategy, the dispatch terminates, every leaf is a configured upstream, and the result is one that flat
    dispatching over the leaves of that group could return.
   */
  method DispatchContext(cfg: AppConfig, tags: set<string>, qtype: string, defaultStrategy: Strategy, run: Run)
    returns (rule: Option<Rule>, group: Name, st: Strategy, r: UpstreamResult, ghost rank: map<Name, nat>)
    requires Dispatchable(cfg) && NoEmptyGroups(cfg) && ValidRun(run)
    ensures Decides(cfg.rules, rule, tags, qtype)
    ensures group == TargetGroup(cfg, rule) && st == TargetStrategy(rule, defaultStrategy)
    ensures rule.None? ==> group == cfg.defaultGroup && st == defaultStrategy
    ensures rule.Some? ==> st == match rule.value.dispatcher case None => defaultStrategy case Some(d) => d
    ensures IsOutcome(cfg, group, st, run, tags, r)
    ensures group in GroupMap(cfg.groups) && Ranked(cfg, rank)
    ensures var t := Unfold(cfg, rank, group, [], run, tags);
      t.Node? && LeavesConfigured(cfg, t) && NoEmptyGroup(t) && Preferred(st, Leaves(t), r) && Reaches(st, t, r)
  {
    group, rule := SelectGroup(cfg, tags, qtype);
    st := TargetStrategy(rule, defaultStrategy);
    rank :| RanksOn(GraphOf(cfg), GraphOf(cfg).Keys, rank);
    r := DispatchGroup(cfg, rank, group, st, [], run, tags);
    UnfoldIsSound(cfg, rank, group, [], run, tags);
    OrdersFit(cfg, rank, group, [], run, tags);
    NestedIsPreferred(st, Unfold(cfg, rank, group, [], run, tags), Orders(cfg, rank, group, [], run));
    PreferredIsOutcome(cfg, rank, group, st, run, tags, r);
  }
}
