/**
  Reference validation of the application configuration: unique names, resolvable references,
  and the three-colour depth-first search that refuses cyclic group references.
 */
module GroupConfig {
  import opened Prelude

  type Name = string

  datatype Strategy = Race | WaitAll
  datatype Upstream = Upstream(name: Name, nameservers: seq<Name>)
  datatype Group = Group(name: Name, upstreams: seq<Name>)
  datatype Rule = Rule(
    name: Name, enabled: bool,
    matchTags: seq<string>, excludeTags: seq<string>, qtypes: seq<string>,
    upstreamGroup: Option<Name>, dispatcher: Option<Strategy>)
  datatype AppConfig = AppConfig(
    listeners: seq<Name>, nameservers: seq<Name>, upstreams: seq<Upstream>, groups: seq<Group>,
    rules: seq<Rule>, plugins: seq<Name>, webuiEnabled: bool, dohEnabled: bool, defaultGroup: Name)
  {
    function UpstreamNameList(): seq<Name> { seq(|upstreams|, i requires 0 <= i < |upstreams| => upstreams[i].name) }
    function GroupNameList(): seq<Name> { seq(|groups|, i requires 0 <= i < |groups| => groups[i].name) }
    function RuleNameList(): seq<Name> { seq(|rules|, i requires 0 <= i < |rules| => rules[i].name) }
    function UpstreamNames(): set<Name> { Elems(UpstreamNameList()) }
    function GroupNames(): set<Name> { Elems(GroupNameList()) }
  }

  // ---------- Reference graphs ----------

  type Graph = map<Name, seq<Name>>

  predicate Edge(g: Graph, a: Name, b: Name) {
    a in g && b in g[a]
  }

  ghost predicate ClosedUnderEdges(g: Graph) {
    forall a, b :: Edge(g, a, b) ==> b in g
  }

  ghost predicate Walk(g: Graph, w: seq<Name>) {
    |w| <= 1 || (Edge(g, w[|w| - 2], w[|w| - 1]) && Walk(g, w[..|w| - 1]))
  }

  /** A closed walk of at least one reference; a self-reference is the walk [n, n]. */
  ghost predicate ClosedWalk(g: Graph, w: seq<Name>) {
    |w| >= 2 && w[0] == w[|w| - 1] && Walk(g, w)
  }

  ghost predicate Acyclic(g: Graph) {
    forall w :: !ClosedWalk(g, w)
  }

  /** rank drops along every reference that leaves a member of `nodes`, and `nodes` keeps its successors. */
  ghost predicate RanksOn(g: Graph, nodes: set<Name>, rank: map<Name, nat>) {
    && nodes <= g.Keys * rank.Keys
    && forall a, b :: a in nodes && Edge(g, a, b) ==> b in nodes && rank[b] < rank[a]
  }

  ghost predicate HasRank(g: Graph) {
    exists rank :: RanksOn(g, g.Keys, rank)
  }

  lemma {:induction false} RankDropsAlongWalk(g: Graph, rank: map<Name, nat>, w: seq<Name>)
    requires RanksOn(g, g.Keys, rank) && Walk(g, w) && |w| >= 2
    ensures w[|w| - 1] in rank && w[0] in rank && rank[w[|w| - 1]] < rank[w[0]]
  {
    if |w| > 2 {
      RankDropsAlongWalk(g, rank, w[..|w| - 1]);
    }
  }

  lemma RankForbidsCycles(g: Graph)
    requires HasRank(g)
    ensures Acyclic(g)
  {
    var rank :| RanksOn(g, g.Keys, rank);
    forall w ensures !ClosedWalk(g, w) {
      if ClosedWalk(g, w) { RankDropsAlongWalk(g, rank, w); }
    }
  }

  /** Finishing a node whose successors are all finished, with a rank above every rank given so far. */
  lemma FinishKeepsRank(g: Graph, done: set<Name>, rank: map<Name, nat>, clock: nat, node: Name)
    requires RanksOn(g, done, rank) && node in g && node !in done
    requires forall n :: n in done ==> rank[n] < clock
    requires forall t :: t in g[node] ==> t in done
    ensures RanksOn(g, done + {node}, rank[node := clock])
    ensures forall n :: n in done + {node} ==> rank[node := clock][n] < clock + 1
  {
  }

  lemma WalkExtends(g: Graph, path: seq<Name>, node: Name)
    requires Walk(g, path) && (path != [] ==> Edge(g, path[|path| - 1], node))
    ensures Walk(g, path + [node])
  {
  }

  lemma {:induction false} WalkSuffix(g: Graph, path: seq<Name>, start: nat)
    requires Walk(g, path) && start <= |path|
    ensures Walk(g, path[start..])
  {
    if start + 1 < |path| {
      WalkSuffix(g, path[..|path| - 1], start);
      assert path[start..][..|path| - start - 1] == path[..|path| - 1][start..];
    }
  }

  /** Meeting a node that is already on the path closes a walk. */
  lemma PathCloses(g: Graph, path: seq<Name>, node: Name)
    requires Walk(g, path) && node in path && Edge(g, path[|path| - 1], node)
    ensures ClosedWalk(g, path[IndexOf(path, node)..] + [node])
  {
    WalkSuffix(g, path, IndexOf(path, node));
    WalkExtends(g, path[IndexOf(path, node)..], node);
  }

  // ---------- The adjacency of a configuration ----------

  function FilterIn(targets: seq<Name>, names: set<Name>): (r: seq<Name>)
    ensures forall t :: t in r <==> t in targets && t in names
  {
    if targets == [] then []
    else (if targets[0] in names then [targets[0]] else []) + FilterIn(targets[1..], names)
  }

  /** A dictionary built from the group list: a later entry replaces an earlier one of the same name. */
  function GroupMap(groups: seq<Group>): (m: map<Name, Group>)
    ensures forall n :: n in m ==> m[n] in groups && m[n].name == n
    ensures forall g :: g in groups ==> g.name in m
  {
    if groups == [] then map[]
    else
      var last := groups[|groups| - 1];
      GroupMap(groups[..|groups| - 1])[last.name := last]
  }

  function Adjacency(groups: seq<Group>, names: set<Name>): (g: Graph) {
    var m := GroupMap(groups);
    map n | n in m :: FilterIn(m[n].upstreams, names)
  }

  function GraphOf(cfg: AppConfig): (g: Graph) {
    Adjacency(cfg.groups, cfg.GroupNames())
  }

  lemma GroupMapKeys(cfg: AppConfig)
    ensures GroupMap(cfg.groups).Keys == cfg.GroupNames()
    ensures ClosedUnderEdges(GraphOf(cfg))
  {
    var m := GroupMap(cfg.groups);
    forall n ensures n in m <==> n in cfg.GroupNames() {
      if n in m {
        var i :| 0 <= i < |cfg.groups| && cfg.groups[i] == m[n];
        assert cfg.GroupNameList()[i] == n;
      }
      if n in cfg.GroupNames() {
        var i :| 0 <= i < |cfg.groups| && cfg.GroupNameList()[i] == n;
        assert cfg.groups[i] in cfg.groups;
      }
    }
  }

  // ---------- The depth-first search ----------

  /** The shared state of the search: the nodes on the current path and the finished ones. */
  class CycleSearch {
    const adjacency: Graph
    var visiting: set<Name>
    var visited: set<Name>
    var path: seq<Name>
    ghost var rank: map<Name, nat>
    ghost var clock: nat

    ghost predicate Valid() reads this {
      && ClosedUnderEdges(adjacency)
      && (forall n :: n in visiting <==> n in path) && Walk(adjacency, path)
      && visiting <= adjacency.Keys
      && visiting !! visited
      && RanksOn(adjacency, visited, rank)
      && forall n :: n in visited ==> rank[n] < clock
    }

    constructor (adjacency: Graph)
      requires ClosedUnderEdges(adjacency)
      ensures Valid() && this.adjacency == adjacency && path == [] && visited == {}
    {
      this.adjacency := adjacency;
      visiting, visited, path, rank, clock := {}, {}, [], map[], 0;
    }

    /**
      Either finishes `node` and everything reachable from it, leaving the path as it was,
      or reports a genuine closed walk of references.
     */
    method Dfs(node: Name) returns (cycle: Option<seq<Name>>)
      requires Valid() && node in adjacency
      requires path != [] ==> Edge(adjacency, path[|path| - 1], node)
      modifies this
      ensures cycle.None? ==>
        Valid() && path == old(path) && visiting == old(visiting) && visited >= old(visited) + {node}
      ensures cycle.Some? ==> ClosedWalk(adjacency, cycle.value)
      decreases adjacency.Keys - visiting, 0
    {
      if node in visiting {
        var start := IndexOf(path, node);
        PathCloses(adjacency, path, node);
        return Some(path[start..] + [node]);
      }
      if node in visited {
        return None;
      }
      WalkExtends(adjacency, path, node);
      visiting := visiting + {node};
      path := path + [node];
      cycle := VisitTargets(node);
      if cycle.None? {
        FinishKeepsRank(adjacency, visited, rank, clock, node);
        path := path[..|path| - 1];
        visiting := visiting - {node};
        visited := visited + {node};
        rank, clock := rank[node := clock], clock + 1;
        assert path == old(path);
      }
    }

    /** The loop over the references of the node that was just put on the path. */
    method VisitTargets(node: Name) returns (cycle: Option<seq<Name>>)
      requires Valid() && path != [] && path[|path| - 1] == node
      modifies this
      ensures cycle.None? ==>
        Valid() && path == old(path) && visiting == old(visiting) && visited >= old(visited)
        && forall t :: t in adjacency[node] ==> t in visited
      ensures cycle.Some? ==> ClosedWalk(adjacency, cycle.value)
      decreases adjacency.Keys - visiting, 1
    {
      var targets := adjacency[node];
      var i := 0;
      while i < |targets|
        invariant 0 <= i <= |targets|
        invariant Valid() && path == old(path) && visiting == old(visiting) && visited >= old(visited)
        invariant forall k :: 0 <= k < i ==> targets[k] in visited
      {
        assert Edge(adjacency, node, targets[i]);
        cycle := Dfs(targets[i]);
        if cycle.Some? {
          return;
        }
        i := i + 1;
      }
      return None;
    }
  }

  /** Every node finished: the whole graph is ranked. */
  lemma AllFinished(g: Graph, done: set<Name>, rank: map<Name, nat>)
    requires RanksOn(g, done, rank) && g.Keys <= done
    ensures HasRank(g) && Acyclic(g)
  {
    assert done == g.Keys;
    RankForbidsCycles(g);
  }

  lemma WalkRefutes(g: Graph, w: seq<Name>)
    requires ClosedWalk(g, w)
    ensures !Acyclic(g)
  {
  }

  /** Searches from every node in turn, each with an empty path. */
  method SearchAll(g: Graph, order: seq<Name>) returns (cycle: Option<seq<Name>>)
    requires ClosedUnderEdges(g) && forall n :: n in order <==> n in g
    ensures cycle.None? ==> HasRank(g) && Acyclic(g)
    ensures cycle.Some? ==> ClosedWalk(g, cycle.value) && !Acyclic(g)
  {
    var search := new CycleSearch(g);
    var i := 0;
    while i < |order|
      invariant 0 <= i <= |order| && search.adjacency == g && fresh(search)
      invariant search.Valid() && search.path == []
      invariant forall k :: 0 <= k < i ==> order[k] in search.visited
    {
      assert order[i] in order;
      search.path := [];
      cycle := search.Dfs(order[i]);
      if cycle.Some? {
        WalkRefutes(g, cycle.value);
        return;
      }
      i := i + 1;
    }
    AllFinished(g, search.visited, search.rank);
    return None;
  }

  lemma AdjacencyNodes(groups: seq<Group>, names: set<Name>, order: seq<Name>)
    requires |order| == |groups| && forall i :: 0 <= i < |groups| ==> order[i] == groups[i].name
    ensures forall n :: n in order <==> n in Adjacency(groups, names)
  {
    forall n ensures n in order <==> n in GroupMap(groups) {
      if n in order {
        var i :| 0 <= i < |order| && order[i] == n;
        assert groups[i] in groups;
      }
      if n in GroupMap(groups) {
        var i :| 0 <= i < |groups| && groups[i] == GroupMap(groups)[n];
        assert order[i] == n;
      }
    }
  }

  /**
    Accepts exactly the graphs without a closed walk; acceptance hands over a rank that drops along
    every reference, rejection a closed walk.
   */
  method ValidateGroupCycles(groups: seq<Group>, names: set<Name>) returns (cycle: Option<seq<Name>>)
    requires ClosedUnderEdges(Adjacency(groups, names))
    ensures cycle.None? <==> Acyclic(Adjacency(groups, names))
    ensures cycle.None? ==> HasRank(Adjacency(groups, names))
    ensures cycle.Some? ==> ClosedWalk(Adjacency(groups, names), cycle.value)
  {
    var order := seq(|groups|, i requires 0 <= i < |groups| => groups[i].name);
    AdjacencyNodes(groups, names, order);
    cycle := SearchAll(Adjacency(groups, names), order);
  }

  // ---------- Reference validation ----------

  datatype ConfigError =
    | DuplicateName(name: Name)
    | NoListener | NoNameserver | NoUpstream | NoGroup
    | UnknownDefaultGroup(name: Name)
    | NameClash(names: set<Name>)
    | MissingNameserver(owner: Name, missing: set<Name>)
    | MissingTarget(owner: Name, missing: set<Name>)
    | GroupCycle(walk: seq<Name>)
    | UnknownRuleGroup(rule: Name, group: Name)
  {
    /** The position of the check that raises this error. */
    function Stage(): nat {
      match this
      case DuplicateName(_) => 0
      case NoListener => 1
      case NoNameserver => 2
      case NoUpstream => 3
      case NoGroup => 4
      case UnknownDefaultGroup(_) => 5
      case NameClash(_) => 6
      case MissingNameserver(_, _) => 7
      case MissingTarget(_, _) => 8
      case GroupCycle(_) => 9
      case UnknownRuleGroup(_, _) => 10
    }
  }

  const STAGES: nat := 11

  ghost predicate Repeats(names: seq<Name>, n: Name) {
    exists i, j :: 0 <= i < j < |names| && names[i] == n && names[j] == n
  }

  ghost predicate UniqueNames(cfg: AppConfig) {
    && Distinct(cfg.listeners) && Distinct(cfg.nameservers) && Distinct(cfg.UpstreamNameList())
    && Distinct(cfg.GroupNameList()) && Distinct(cfg.RuleNameList()) && Distinct(cfg.plugins)
  }

  ghost predicate NameserversResolve(cfg: AppConfig) {
    forall u, s :: u in cfg.upstreams && s in u.nameservers ==> s in cfg.nameservers
  }

  ghost predicate TargetsResolve(cfg: AppConfig) {
    forall g, t :: g in cfg.groups && t in g.upstreams ==> t in cfg.UpstreamNames() || t in cfg.GroupNames()
  }

  ghost predicate RulesResolve(cfg: AppConfig) {
    forall r :: r in cfg.rules && r.upstreamGroup.Some? ==> r.upstreamGroup.value in cfg.GroupNames()
  }

  /** What the check at this position demands. */
  ghost predicate Passes(cfg: AppConfig, stage: nat) {
    match stage
    case 0 => UniqueNames(cfg)
    case 1 => cfg.listeners != [] || cfg.webuiEnabled || cfg.dohEnabled
    case 2 => cfg.nameservers != []
    case 3 => cfg.upstreams != []
    case 4 => cfg.groups != []
    case 5 => cfg.defaultGroup in cfg.GroupNames()
    case 6 => cfg.UpstreamNames() * cfg.GroupNames() == {}
    case 7 => NameserversResolve(cfg)
    case 8 => TargetsResolve(cfg)
    case 9 => Acyclic(GraphOf(cfg))
    case 10 => RulesResolve(cfg)
    case _ => true
  }

  ghost predicate PassesBetween(cfg: AppConfig, from: nat, to: nat) {
    forall k :: from <= k < to ==> Passes(cfg, k)
  }

  lemma PassesNext(cfg: AppConfig, from: nat, k: nat)
    requires PassesBetween(cfg, from, k) && Passes(cfg, k)
    ensures PassesBetween(cfg, from, k + 1)
  {
  }

  lemma PassesJoined(cfg: AppConfig, from: nat, mid: nat, to: nat)
    requires PassesBetween(cfg, from, mid) && PassesBetween(cfg, mid, to)
    ensures PassesBetween(cfg, from, to)
  {
  }

  lemma FailureDecides(cfg: AppConfig, from: nat, stage: nat, to: nat)
    requires FailsFirst(cfg, from, stage) && stage < to
    ensures !PassesBetween(cfg, from, to)
  {
  }

  lemma FailsLater(cfg: AppConfig, from: nat, mid: nat, stage: nat)
    requires PassesBetween(cfg, from, mid) && FailsFirst(cfg, mid, stage) && from <= mid
    ensures FailsFirst(cfg, from, stage)
  {
    PassesJoined(cfg, from, mid, stage);
  }

  /** The check at this position is the first that fails. */
  ghost predicate FailsFirst(cfg: AppConfig, from: nat, stage: nat) {
    from <= stage && PassesBetween(cfg, from, stage) && !Passes(cfg, stage)
  }

  /** The error carries a true diagnosis. */
  ghost predicate Genuine(cfg: AppConfig, e: ConfigError) {
    match e
    case DuplicateName(n) =>
      || Repeats(cfg.listeners, n) || Repeats(cfg.nameservers, n) || Repeats(cfg.UpstreamNameList(), n)
      || Repeats(cfg.GroupNameList(), n) || Repeats(cfg.RuleNameList(), n) || Repeats(cfg.plugins, n)
    case UnknownDefaultGroup(n) => n == cfg.defaultGroup
    case NameClash(ns) => ns == cfg.UpstreamNames() * cfg.GroupNames()
    case MissingNameserver(o, ms) =>
      exists u :: u in cfg.upstreams && u.name == o && ms == Elems(u.nameservers) - Elems(cfg.nameservers) && ms != {}
    case MissingTarget(o, ms) =>
      exists g :: g in cfg.groups && g.name == o
        && ms == Elems(g.upstreams) - (cfg.UpstreamNames() + cfg.GroupNames()) && ms != {}
    case GroupCycle(w) => ClosedWalk(GraphOf(cfg), w)
    case UnknownRuleGroup(n, g) =>
      exists r :: r in cfg.rules && r.name == n && r.upstreamGroup == Some(g) && g !in cfg.GroupNames()
    case _ => true
  }

  /** The first value that repeats an earlier one. */
  method FirstDuplicate(names: seq<Name>) returns (dup: Option<Name>)
    ensures dup.None? <==> Distinct(names)
    ensures dup.Some? ==> Repeats(names, dup.value)
  {
    var seen: set<Name> := {};
    var i := 0;
    while i < |names|
      invariant 0 <= i <= |names|
      invariant seen == Elems(names[..i]) && Distinct(names[..i])
    {
      if names[i] in seen {
        var j :| 0 <= j < i && names[j] == names[i];
        return Some(names[i]);
      }
      DistinctSnoc(names[..i], names[i]);
      assert names[..i + 1] == names[..i] + [names[i]];
      seen := seen + {names[i]};
      i := i + 1;
    }
    assert names[..i] == names;
    return None;
  }

  method ValidateUniqueNames(cfg: AppConfig) returns (e: Option<ConfigError>)
    ensures e.None? <==> UniqueNames(cfg)
    ensures e.Some? ==> e.value.DuplicateName? && Genuine(cfg, e.value)
  {
    var lists := [cfg.listeners, cfg.nameservers, cfg.UpstreamNameList(), cfg.GroupNameList(), cfg.RuleNameList(),
      cfg.plugins];
    var i := 0;
    while i < |lists|
      invariant 0 <= i <= |lists|
      invariant forall k :: 0 <= k < i ==> Distinct(lists[k])
    {
      var dup := FirstDuplicate(lists[i]);
      if dup.Some? {
        assert Repeats(lists[i], dup.value);
        return Some(DuplicateName(dup.value));
      }
      i := i + 1;
    }
    assert Distinct(lists[0]) && Distinct(lists[1]) && Distinct(lists[2]) && Distinct(lists[3]) && Distinct(lists[4])
      && Distinct(lists[5]);
    return None;
  }

  function RequiredConfigError(cfg: AppConfig): (e: Option<ConfigError>)
    ensures e.Some? ==> FailsFirst(cfg, 1, e.value.Stage()) && e.value.Stage() < 7 && Genuine(cfg, e.value)
    ensures e.None? <==> PassesBetween(cfg, 1, 7)
  {
    var clash := cfg.UpstreamNames() * cfg.GroupNames();
    if cfg.listeners == [] && !cfg.webuiEnabled && !cfg.dohEnabled then Some(NoListener)
    else if cfg.nameservers == [] then Some(NoNameserver)
    else if cfg.upstreams == [] then Some(NoUpstream)
    else if cfg.groups == [] then Some(NoGroup)
    else if cfg.defaultGroup !in cfg.GroupNames() then Some(UnknownDefaultGroup(cfg.defaultGroup))
    else if clash != {} then Some(NameClash(clash))
    else None
  }

  method ValidateUpstreamRefs(cfg: AppConfig) returns (e: Option<ConfigError>)
    ensures e.None? <==> NameserversResolve(cfg)
    ensures e.Some? ==> e.value.MissingNameserver? && Genuine(cfg, e.value)
  {
    var i := 0;
    while i < |cfg.upstreams|
      invariant 0 <= i <= |cfg.upstreams|
      invariant forall k, s :: 0 <= k < i && s in cfg.upstreams[k].nameservers ==> s in cfg.nameservers
    {
      var u := cfg.upstreams[i];
      var missing := Elems(u.nameservers) - Elems(cfg.nameservers);
      if missing != {} {
        var s :| s in missing;
        assert u in cfg.upstreams && s in u.nameservers;
        return Some(MissingNameserver(u.name, missing));
      }
      assert forall s :: s in u.nameservers ==> s in Elems(u.nameservers) - missing;
      i := i + 1;
    }
    return None;
  }

  method ValidateGroupRefs(cfg: AppConfig) returns (e: Option<ConfigError>)
    ensures e.None? <==> TargetsResolve(cfg)
    ensures e.Some? ==> e.value.MissingTarget? && Genuine(cfg, e.value)
  {
    var available := cfg.UpstreamNames() + cfg.GroupNames();
    var i := 0;
    while i < |cfg.groups|
      invariant 0 <= i <= |cfg.groups|
      invariant forall k, t :: 0 <= k < i && t in cfg.groups[k].upstreams ==> t in available
    {
      var g := cfg.groups[i];
      var missing := Elems(g.upstreams) - available;
      if missing != {} {
        var t :| t in missing;
        assert g in cfg.groups && t in g.upstreams;
        return Some(MissingTarget(g.name, missing));
      }
      assert forall t :: t in g.upstreams ==> t in Elems(g.upstreams) - missing;
      i := i + 1;
    }
    forall g, t | g in cfg.groups && t in g.upstreams ensures t in cfg.UpstreamNames() || t in cfg.GroupNames() {
      var k :| 0 <= k < |cfg.groups| && cfg.groups[k] == g;
      assert t in cfg.groups[k].upstreams;
      assert t in available;
    }
    return None;
  }

  method ValidateRuleRefs(cfg: AppConfig) returns (e: Option<ConfigError>)
    ensures e.None? <==> RulesResolve(cfg)
    ensures e.Some? ==> e.value.UnknownRuleGroup? && Genuine(cfg, e.value)
  {
    var i := 0;
    while i < |cfg.rules|
      invariant 0 <= i <= |cfg.rules|
      invariant forall k :: 0 <= k < i && cfg.rules[k].upstreamGroup.Some? ==>
        cfg.rules[k].upstreamGroup.value in cfg.GroupNames()
    {
      var r := cfg.rules[i];
      if r.upstreamGroup.Some? && r.upstreamGroup.value !in cfg.GroupNames() {
        assert r in cfg.rules;
        return Some(UnknownRuleGroup(r.name, r.upstreamGroup.value));
      }
      i := i + 1;
    }
    return None;
  }

  /** The checks of the names and of what must be present. */
  method ValidateNames(cfg: AppConfig) returns (e: Option<ConfigError>)
    ensures e.None? ==> PassesBetween(cfg, 0, 7)
    ensures e.Some? ==> FailsFirst(cfg, 0, e.value.Stage()) && e.value.Stage() < 7 && Genuine(cfg, e.value)
  {
    e := ValidateUniqueNames(cfg);
    if e.None? {
      assert Passes(cfg, 0);
      assert PassesBetween(cfg, 0, 1);
      e := RequiredConfigError(cfg);
      if e.None? {
        PassesJoined(cfg, 0, 1, 7);
      } else {
        FailsLater(cfg, 0, 1, e.value.Stage());
      }
    }
  }

  /** The checks of the references to nameservers and of the groups' targets. */
  method ValidateTargets(cfg: AppConfig) returns (e: Option<ConfigError>)
    ensures e.None? ==> PassesBetween(cfg, 7, 9)
    ensures e.Some? ==> FailsFirst(cfg, 7, e.value.Stage()) && e.value.Stage() < 9 && Genuine(cfg, e.value)
  {
    e := ValidateUpstreamRefs(cfg);
    if e.Some? { return; }
    PassesNext(cfg, 7, 7);
    e := ValidateGroupRefs(cfg);
    if e.None? { PassesNext(cfg, 7, 8); }
  }

  lemma CycleStage(cfg: AppConfig)
    ensures Passes(cfg, 9) <==> Acyclic(GraphOf(cfg))
    ensures PassesBetween(cfg, 9, 10) <==> Acyclic(GraphOf(cfg))
    ensures FailsFirst(cfg, 9, 9) <==> !Acyclic(GraphOf(cfg))
  {
  }

  /** The check of the group graph. */
  method ValidateGraph(cfg: AppConfig) returns (e: Option<ConfigError>)
    ensures e.None? ==> PassesBetween(cfg, 9, 10) && HasRank(GraphOf(cfg))
    ensures e.Some? ==> FailsFirst(cfg, 9, 9) && e.value.GroupCycle? && Genuine(cfg, e.value)
  {
    GroupMapKeys(cfg);
    CycleStage(cfg);
    var cycle := ValidateGroupCycles(cfg.groups, cfg.GroupNames());
    return if cycle.Some? then Some(GroupCycle(cycle.value)) else None;
  }

  /** The checks of the group graph and of the rules. */
  method ValidateGraphAndRules(cfg: AppConfig) returns (e: Option<ConfigError>)
    ensures e.None? ==> PassesBetween(cfg, 9, STAGES) && HasRank(GraphOf(cfg))
    ensures e.Some? ==> FailsFirst(cfg, 9, e.value.Stage()) && e.value.Stage() < STAGES && Genuine(cfg, e.value)
  {
    e := ValidateGraph(cfg);
    if e.None? {
      e := ValidateRuleRefs(cfg);
      if e.None? {
        PassesNext(cfg, 9, 10);
      }
    }
  }

  /**
    Accepts exactly the configurations that satisfy every check, and otherwise reports the first check
    that fails, with a true diagnosis. Acceptance also yields the rank that dispatching descends.
   */
  method ValidateReferences(cfg: AppConfig) returns (e: Option<ConfigError>)
    ensures e.None? <==> PassesBetween(cfg, 0, STAGES)
    ensures e.None? ==> Dispatchable(cfg)
    ensures e.Some? ==> FailsFirst(cfg, 0, e.value.Stage()) && e.value.Stage() < STAGES && Genuine(cfg, e.value)
  {
    e := ValidateNames(cfg);
    if e.None? {
      e := ValidateTargets(cfg);
      if e.None? {
        PassesJoined(cfg, 0, 7, 9);
        e := ValidateGraphAndRules(cfg);
        if e.None? {
          PassesJoined(cfg, 0, 9, STAGES);
          AcceptedIsDispatchable(cfg);
          return;
        }
        FailsLater(cfg, 0, 9, e.value.Stage());
      } else {
        FailsLater(cfg, 0, 7, e.value.Stage());
      }
    }
    FailureDecides(cfg, 0, e.value.Stage(), STAGES);
  }

  /** What dispatching relies on. */
  ghost predicate Dispatchable(cfg: AppConfig) {
    && HasRank(GraphOf(cfg))
    && cfg.defaultGroup in GroupMap(cfg.groups)
    && (forall g, t :: g in cfg.groups && t in g.upstreams ==> t in GroupMap(cfg.groups) || t in cfg.UpstreamNames())
    && (forall r :: r in cfg.rules && r.upstreamGroup.Some? ==> r.upstreamGroup.value in GroupMap(cfg.groups))
  }

  lemma AcceptedIsDispatchable(cfg: AppConfig)
    requires HasRank(GraphOf(cfg)) && PassesBetween(cfg, 0, STAGES)
    ensures Dispatchable(cfg)
  {
    GroupMapKeys(cfg);
    assert Passes(cfg, 5) && Passes(cfg, 8) && Passes(cfg, 10);
  }
}
