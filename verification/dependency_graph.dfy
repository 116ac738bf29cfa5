/**
 * The stage dependency graph and its Kahn-style layering.
 *
 * A graph holds, for every registered stage, the list of stages that depend
 * on it (`adjacency`, duplicates kept), a registered in-degree, and the set
 * of registered stages. `topological_sort` peels off the stages of in-degree
 * zero one round at a time; each round is one layer. The iteration orders of
 * the Rust hash containers are inputs: an `order` that enumerates the keys.
 */
module DependencyGraph {
  import opened Common
  import opened Stages

  datatype GraphError = CircularDependency(cycle: seq<Stage>) | StageNotFound(stage: Stage)

  datatype Graph = Graph(adjacency: map<Stage, seq<Stage>>, inDegree: map<Stage, nat>, stages: set<Stage>)

  /** The dependents recorded for `u`, or none when `u` has no entry. */
  function Dependents(g: Graph, u: Stage): seq<Stage>
  {
    if u in g.adjacency then g.adjacency[u] else []
  }

  /** Number of edges into `v` whose source is listed in `us` and not in `done`. */
  function CountFrom(g: Graph, us: seq<Stage>, done: set<Stage>, v: Stage): nat
  {
    if |us| == 0 then 0
    else (if us[0] in done then 0 else Count(Dependents(g, us[0]), v)) + CountFrom(g, us[1..], done, v)
  }

  /** Number of edges into `v` whose source is not in `done`. */
  function Pending(g: Graph, done: set<Stage>, v: Stage): nat
  {
    CountFrom(g, All(), done, v)
  }

  /** The shape every graph built through `new`, `add_stage`,
      `add_dependency` and `from_stages` has: the three containers share
      their keys, every edge ends at a registered stage, and the registered
      in-degree of a stage is the number of edges into it. */
  predicate Valid(g: Graph)
  {
    && g.adjacency.Keys == g.stages
    && g.inDegree.Keys == g.stages
    && (forall u, v | u in g.adjacency && v in g.adjacency[u] :: v in g.stages)
    && (forall v | v in g.inDegree :: g.inDegree[v] == Pending(g, {}, v))
  }

  // ---------------------------------------------------------------------
  // Counting edges
  // ---------------------------------------------------------------------

  lemma {:induction false} CountFromRemove(g: Graph, us: seq<Stage>, done: set<Stage>, u: Stage, v: Stage)
    requires NoDups(us) && u !in done
    ensures CountFrom(g, us, done + {u}, v) + (if u in us then Count(Dependents(g, u), v) else 0)
            == CountFrom(g, us, done, v)
  {
    if |us| > 0 {
      var u0, tail := us[0], us[1..];
      NoDupsTail(us);
      CountFromRemove(g, tail, done, u, v);
      assert CountFrom(g, us, done + {u}, v) == (if u0 in done + {u} then 0 else Count(Dependents(g, u0), v)) + CountFrom(g, tail, done + {u}, v);
      assert CountFrom(g, us, done, v) == (if u0 in done then 0 else Count(Dependents(g, u0), v)) + CountFrom(g, tail, done, v);
      assert u in us <==> u0 == u || u in tail;
    }
  }

  lemma {:induction false} CountFromPositive(g: Graph, us: seq<Stage>, done: set<Stage>, v: Stage)
    ensures CountFrom(g, us, done, v) > 0
            <==> exists k :: 0 <= k < |us| && us[k] !in done && v in Dependents(g, us[k])
  {
    if |us| > 0 {
      CountFromPositive(g, us[1..], done, v);
      CountPositive(Dependents(g, us[0]), v);
      if exists k :: 0 <= k < |us| && us[k] !in done && v in Dependents(g, us[k]) {
        var k :| 0 <= k < |us| && us[k] !in done && v in Dependents(g, us[k]);
        if k > 0 {
          assert us[1..][k - 1] == us[k];
        }
      }
      if exists k :: 0 <= k < |us[1..]| && us[1..][k] !in done && v in Dependents(g, us[1..][k]) {
        var k :| 0 <= k < |us[1..]| && us[1..][k] !in done && v in Dependents(g, us[1..][k]);
        assert us[k + 1] == us[1..][k];
      }
    }
  }

  /** Pending edges into `v` exist exactly when some unfinished stage lists `v`. */
  lemma PendingPositive(g: Graph, done: set<Stage>, v: Stage)
    ensures Pending(g, done, v) > 0 <==> exists u :: u !in done && v in Dependents(g, u)
  {
    CountFromPositive(g, All(), done, v);
    AllIsEnumeration();
    if exists u :: u !in done && v in Dependents(g, u) {
      var u :| u !in done && v in Dependents(g, u);
      assert u in All();
      var k :| 0 <= k < |All()| && All()[k] == u;
    }
  }

  lemma {:induction false} CountFromSameDependents(g: Graph, h: Graph, us: seq<Stage>, done: set<Stage>, v: Stage)
    requires forall u :: Dependents(g, u) == Dependents(h, u)
    ensures CountFrom(g, us, done, v) == CountFrom(h, us, done, v)
  {
    if |us| > 0 {
      CountFromSameDependents(g, h, us[1..], done, v);
    }
  }

  lemma {:induction false} CountFromAppendEdge(g: Graph, h: Graph, us: seq<Stage>, done: set<Stage>, x: Stage, t: Stage, v: Stage)
    requires NoDups(us)
    requires Count(Dependents(h, x), v) == Count(Dependents(g, x), v) + (if v == t then 1 else 0)
    requires forall u | u != x :: Dependents(h, u) == Dependents(g, u)
    ensures CountFrom(h, us, done, v)
            == CountFrom(g, us, done, v) + (if x in us && x !in done && v == t then 1 else 0)
  {
    if |us| > 0 {
      var u0, tail := us[0], us[1..];
      NoDupsTail(us);
      CountFromAppendEdge(g, h, tail, done, x, t, v);
      assert CountFrom(h, us, done, v) == (if u0 in done then 0 else Count(Dependents(h, u0), v)) + CountFrom(h, tail, done, v);
      assert CountFrom(g, us, done, v) == (if u0 in done then 0 else Count(Dependents(g, u0), v)) + CountFrom(g, tail, done, v);
      if u0 != x {
        assert Dependents(h, u0) == Dependents(g, u0);
        assert x in us <==> x in tail;
      }
    }
  }

  // ---------------------------------------------------------------------
  // Construction
  // ---------------------------------------------------------------------

  /** `StageDependencyGraph::new`. */
  function New(): (g: Graph)
    ensures Valid(g)
    ensures g.stages == {}
  {
    Graph(map[], map[], {})
  }

  /** `add_stage`: registers `s` with no dependents and in-degree 0, unless
      it is already registered, in which case nothing changes. */
  function AddStage(g: Graph, s: Stage): (r: Graph)
    ensures r.stages == g.stages + {s}
    ensures r.adjacency.Keys == g.adjacency.Keys + {s}
    ensures r.inDegree.Keys == g.inDegree.Keys + {s}
    ensures forall u :: Dependents(r, u) == Dependents(g, u)
    ensures r.inDegree[s] == (if s in g.inDegree then g.inDegree[s] else 0)
    ensures forall v | v in g.inDegree :: r.inDegree[v] == g.inDegree[v]
  {
    var r := Graph(
      if s in g.adjacency then g.adjacency else g.adjacency[s := []],
      if s in g.inDegree then g.inDegree else g.inDegree[s := 0],
      g.stages + {s});
    assert forall u :: Dependents(r, u) == Dependents(g, u);
    r
  }

  /** `add_stage` keeps a graph well formed, and on a stage already
      registered it changes nothing. */
  lemma AddStagePreservesValid(g: Graph, s: Stage)
    requires Valid(g)
    ensures Valid(AddStage(g, s))
    ensures s in g.stages ==> AddStage(g, s) == g
  {
    AddStageValid(g, AddStage(g, s), s);
  }

  lemma AddStageValid(g: Graph, r: Graph, s: Stage)
    requires Valid(g)
    requires r.stages == g.stages + {s} && r.adjacency.Keys == r.stages && r.inDegree.Keys == r.stages
    requires forall u :: Dependents(r, u) == Dependents(g, u)
    requires r.inDegree[s] == (if s in g.inDegree then g.inDegree[s] else 0)
    requires forall v | v in g.inDegree :: r.inDegree[v] == g.inDegree[v]
    ensures Valid(r)
  {
    forall v ensures Pending(r, {}, v) == Pending(g, {}, v) {
      CountFromSameDependents(r, g, All(), {}, v);
    }
    if s !in g.stages {
      PendingPositive(g, {}, s);
    }
    forall u, v | u in r.adjacency && v in r.adjacency[u] ensures v in r.stages {
      assert v in Dependents(g, u);
    }
  }

  /** `add_dependency(from, to)`: registers both stages, appends `to` to the
      dependents of `from` (a repeated edge is kept twice), and raises the
      in-degree of `to` by one. */
  function AddDependency(g: Graph, from: Stage, to: Stage): (r: Graph)
    ensures r.stages == g.stages + {from, to}
    ensures r.adjacency.Keys == g.adjacency.Keys + {from, to}
    ensures r.inDegree.Keys == g.inDegree.Keys + {from, to}
    ensures Dependents(r, from) == Dependents(g, from) + [to]
    ensures forall u | u != from :: Dependents(r, u) == Dependents(g, u)
    ensures r.inDegree[to] == (if to in g.inDegree then g.inDegree[to] else 0) + 1
    ensures forall v | v != to && v in g.inDegree :: r.inDegree[v] == g.inDegree[v]
  {
    var g1 := AddStage(AddStage(g, from), to);
    AppendEdgeAdjacency(g, from, to);
    AppendEdgeDegrees(g, from, to);
    AppendEdge(g1, from, to)
  }

  /** `add_dependency` keeps a graph well formed: the new edge is counted
      once in the in-degree of its target. */
  lemma AddDependencyPreservesValid(g: Graph, from: Stage, to: Stage)
    requires Valid(g)
    ensures Valid(AddDependency(g, from, to))
  {
    var g0 := AddStage(g, from);
    var g1 := AddStage(g0, to);
    AddStagePreservesValid(g, from);
    AddStagePreservesValid(g0, to);
    AppendEdgeAdjacency(g, from, to);
    AppendEdgeDegrees(g, from, to);
    AddEdgeValid(g1, AppendEdge(g1, from, to), from, to);
  }

  /** The edge itself, on a graph where both ends are registered. */
  function AppendEdge(g: Graph, from: Stage, to: Stage): Graph
    requires from in g.adjacency && to in g.inDegree
  {
    Graph(g.adjacency[from := g.adjacency[from] + [to]], g.inDegree[to := g.inDegree[to] + 1], g.stages)
  }

  lemma AppendEdgeAdjacency(g: Graph, from: Stage, to: Stage)
    ensures var g1 := AddStage(AddStage(g, from), to);
      var r := AppendEdge(g1, from, to);
      && r.stages == g.stages + {from, to}
      && r.adjacency.Keys == g.adjacency.Keys + {from, to}
      && Dependents(r, from) == Dependents(g, from) + [to]
      && Dependents(r, from) == Dependents(g1, from) + [to]
      && (forall u | u != from :: Dependents(r, u) == Dependents(g, u))
  {
    var g0 := AddStage(g, from);
    var g1 := AddStage(g0, to);
    var r := AppendEdge(g1, from, to);
    assert r.adjacency.Keys == g1.adjacency.Keys;
    assert Dependents(g1, from) == Dependents(g0, from) == Dependents(g, from);
    forall u | u != from
      ensures Dependents(r, u) == Dependents(g, u)
    {
      assert Dependents(r, u) == Dependents(g1, u) == Dependents(g0, u);
    }
  }

  lemma AppendEdgeDegrees(g: Graph, from: Stage, to: Stage)
    ensures var g1 := AddStage(AddStage(g, from), to);
      var r := AppendEdge(g1, from, to);
      && r.inDegree.Keys == g.inDegree.Keys + {from, to}
      && r.inDegree[to] == (if to in g.inDegree then g.inDegree[to] else 0) + 1
      && r.inDegree[to] == g1.inDegree[to] + 1
      && (forall v | v != to && v in g.inDegree :: r.inDegree[v] == g.inDegree[v])
      && (forall v | v != to && v in g1.inDegree :: r.inDegree[v] == g1.inDegree[v])
  {
  }

  lemma AddEdgeValid(g: Graph, r: Graph, from: Stage, to: Stage)
    requires Valid(g) && from in g.stages && to in g.stages
    requires r.stages == g.stages && r.adjacency.Keys == r.stages && r.inDegree.Keys == r.stages
    requires Dependents(r, from) == Dependents(g, from) + [to]
    requires forall u | u != from :: Dependents(r, u) == Dependents(g, u)
    requires r.inDegree[to] == g.inDegree[to] + 1
    requires forall v | v != to && v in g.inDegree :: r.inDegree[v] == g.inDegree[v]
    ensures Valid(r)
  {
    forall v | v in r.inDegree ensures r.inDegree[v] == Pending(r, {}, v) {
      PendingAfterEdge(g, r, from, to, v);
    }
    forall u, v | u in r.adjacency && v in r.adjacency[u] ensures v in r.stages {
      assert v in Dependents(r, u);
      if u == from && v !in Dependents(g, u) {
        assert Dependents(r, from)[|Dependents(r, from)| - 1] == to;
      }
    }
  }

  /** The new edge is counted once among the pending edges of its target. */
  lemma PendingAfterEdge(g: Graph, r: Graph, from: Stage, to: Stage, v: Stage)
    requires Dependents(r, from) == Dependents(g, from) + [to]
    requires forall u | u != from :: Dependents(r, u) == Dependents(g, u)
    ensures Pending(r, {}, v) == Pending(g, {}, v) + (if v == to then 1 else 0)
  {
    AllIsEnumeration();
    CountAppend(Dependents(g, from), [to], v);
    assert Count([to], v) == (if v == to then 1 else 0);
    CountFromAppendEdge(g, r, All(), {}, from, to, v);
  }

  /** Registers every stage of `ss`, in order. */
  function AddStages(g: Graph, ss: seq<Stage>): (r: Graph)
    ensures r.stages == g.stages + Elems(ss)
    ensures forall u :: Dependents(r, u) == Dependents(g, u)
    decreases |ss|
  {
    if |ss| == 0 then g
    else
      var r := AddStages(AddStage(g, ss[0]), ss[1..]);
      assert Elems(ss) == {ss[0]} + Elems(ss[1..]);
      r
  }

  /** Adds the edge `dep -> s` for each `dep` of `deps` that is requested. */
  function AddEdgesInto(g: Graph, s: Stage, deps: seq<Stage>, requested: seq<Stage>): (r: Graph)
    requires s in g.stages && Elems(requested) <= g.stages
    ensures r.stages == g.stages
    ensures forall u, v ::
              v in Dependents(r, u) <==> v in Dependents(g, u) || (v == s && u in deps && u in requested)
    decreases |deps|
  {
    if |deps| == 0 then g
    else
      var g1 := if deps[0] in requested then AddDependency(g, deps[0], s) else g;
      EdgeIntoAdded(g, g1, s, deps[0], requested);
      var r := AddEdgesInto(g1, s, deps[1..], requested);
      EdgesIntoStep(g, g1, r, s, deps, requested);
      r
  }

  /** The edge `dep -> s` is added exactly when `dep` is requested. */
  lemma EdgeIntoAdded(g: Graph, g1: Graph, s: Stage, dep: Stage, requested: seq<Stage>)
    requires g1 == if dep in requested then AddDependency(g, dep, s) else g
    ensures forall u, v :: v in Dependents(g1, u) <==> v in Dependents(g, u) || (v == s && u == dep && u in requested)
  {
    if dep in requested {
      forall u, v ensures v in Dependents(g1, u) <==> v in Dependents(g, u) || (v == s && u == dep) {
        if u == dep {
          assert Dependents(g1, u) == Dependents(g, u) + [s];
        }
      }
    }
  }

  lemma EdgesIntoStep(g: Graph, g1: Graph, r: Graph, s: Stage, deps: seq<Stage>, requested: seq<Stage>)
    requires |deps| > 0
    requires forall u, v :: v in Dependents(g1, u) <==> v in Dependents(g, u) || (v == s && u == deps[0] && u in requested)
    requires forall u, v :: v in Dependents(r, u) <==> v in Dependents(g1, u) || (v == s && u in deps[1..] && u in requested)
    ensures forall u, v :: v in Dependents(r, u) <==> v in Dependents(g, u) || (v == s && u in deps && u in requested)
  {
    forall u, v ensures v in Dependents(r, u) <==> v in Dependents(g, u) || (v == s && u in deps && u in requested) {
      assert u in deps <==> u == deps[0] || u in deps[1..];
      assert v in Dependents(g1, u) <==> v in Dependents(g, u) || (v == s && u == deps[0] && u in requested);
      assert v in Dependents(r, u) <==> v in Dependents(g1, u) || (v == s && u in deps[1..] && u in requested);
    }
  }

  /** Adds, for each stage of `ss`, the edges from its requested default
      dependencies. */
  function AddDefaultEdges(g: Graph, ss: seq<Stage>, requested: seq<Stage>): (r: Graph)
    requires Elems(ss) <= g.stages && Elems(requested) <= g.stages
    ensures r.stages == g.stages
    ensures DefaultEdgesAdded(g, r, ss, requested)
    decreases |ss|
  {
    if |ss| == 0 then g
    else
      var g1 := AddEdgesInto(g, ss[0], DefaultDependencies(ss[0]), requested);
      var r := AddDefaultEdges(g1, ss[1..], requested);
      DefaultEdgesStep(g, g1, r, ss, requested);
      r
  }

  lemma {:induction false} AddStagesPreservesValid(g: Graph, ss: seq<Stage>)
    requires Valid(g)
    ensures Valid(AddStages(g, ss))
    decreases |ss|
  {
    if |ss| > 0 {
      AddStagePreservesValid(g, ss[0]);
      AddStagesPreservesValid(AddStage(g, ss[0]), ss[1..]);
    }
  }

  lemma {:induction false} AddEdgesIntoPreservesValid(g: Graph, s: Stage, deps: seq<Stage>, requested: seq<Stage>)
    requires s in g.stages && Elems(requested) <= g.stages
    requires Valid(g)
    ensures Valid(AddEdgesInto(g, s, deps, requested))
    decreases |deps|
  {
    if |deps| > 0 {
      var g1 := if deps[0] in requested then AddDependency(g, deps[0], s) else g;
      if deps[0] in requested {
        AddDependencyPreservesValid(g, deps[0], s);
      }
      AddEdgesIntoPreservesValid(g1, s, deps[1..], requested);
    }
  }

  lemma {:induction false} AddDefaultEdgesPreservesValid(g: Graph, ss: seq<Stage>, requested: seq<Stage>)
    requires Elems(ss) <= g.stages && Elems(requested) <= g.stages
    requires Valid(g)
    ensures Valid(AddDefaultEdges(g, ss, requested))
    decreases |ss|
  {
    if |ss| > 0 {
      var g1 := AddEdgesInto(g, ss[0], DefaultDependencies(ss[0]), requested);
      AddEdgesIntoPreservesValid(g, ss[0], DefaultDependencies(ss[0]), requested);
      AddDefaultEdgesPreservesValid(g1, ss[1..], requested);
    }
  }

  /** `r` has the edges of `g` plus `dep -> v` for each `v` of `ss` and
      each requested default dependency `dep` of `v`. */
  predicate DefaultEdgesAdded(g: Graph, r: Graph, ss: seq<Stage>, requested: seq<Stage>)
  {
    forall u, v ::
      v in Dependents(r, u) <==> v in Dependents(g, u) || (v in ss && u in DefaultDependencies(v) && u in requested)
  }

  lemma DefaultEdgesStep(g: Graph, g1: Graph, r: Graph, ss: seq<Stage>, requested: seq<Stage>)
    requires |ss| > 0
    requires forall u, v ::
               v in Dependents(g1, u) <==> v in Dependents(g, u) || (v == ss[0] && u in DefaultDependencies(ss[0]) && u in requested)
    requires DefaultEdgesAdded(g1, r, ss[1..], requested)
    ensures DefaultEdgesAdded(g, r, ss, requested)
  {
    forall u, v
      ensures v in Dependents(r, u) <==> v in Dependents(g, u) || (v in ss && u in DefaultDependencies(v) && u in requested)
    {
      assert v in ss <==> v == ss[0] || v in ss[1..];
      assert v in Dependents(g1, u) <==> v in Dependents(g, u) || (v == ss[0] && u in DefaultDependencies(ss[0]) && u in requested);
    }
  }

  /** `from_stages`: registers exactly the requested stages, and an edge
      `dep -> s` for each requested `s` whose default dependency `dep` is
      requested too. */
  function FromStages(requested: seq<Stage>): (r: Graph)
    ensures Valid(r)
    ensures r.stages == Elems(requested)
    ensures forall u, v {:trigger v in Dependents(r, u)} {:trigger u in DefaultDependencies(v)} ::
              v in Dependents(r, u) <==> u in requested && v in requested && u in DefaultDependencies(v)
  {
    var g := AddStages(New(), requested);
    EmptyUnion(Elems(requested));
    AddStagesPreservesValid(New(), requested);
    var r := AddDefaultEdges(g, requested, requested);
    AddDefaultEdgesPreservesValid(g, requested, requested);
    DefaultEdgesOnly(g, r, requested);
    r
  }

  /** Added to a graph without edges, the default edges are all there is. */
  lemma DefaultEdgesOnly(g: Graph, r: Graph, requested: seq<Stage>)
    requires forall u :: Dependents(g, u) == Dependents(New(), u)
    requires DefaultEdgesAdded(g, r, requested, requested)
    ensures forall u, v {:trigger v in Dependents(r, u)} {:trigger u in DefaultDependencies(v)} ::
              v in Dependents(r, u) <==> u in requested && v in requested && u in DefaultDependencies(v)
  {
    forall u, v {:trigger v in Dependents(r, u)} {:trigger u in DefaultDependencies(v)}
      ensures v in Dependents(r, u) <==> u in requested && v in requested && u in DefaultDependencies(v)
    {
      assert Dependents(g, u) == [];
      assert v in Dependents(r, u) <==> v in Dependents(g, u) || (v in requested && u in DefaultDependencies(v) && u in requested);
    }
  }

  /** `get_dependencies(s)`: the stages, in the iteration order of the
      adjacency map, whose dependents include `s`. */
  function GetDependencies(g: Graph, s: Stage, adjacencyOrder: seq<Stage>): (r: seq<Stage>)
    requires forall i :: 0 <= i < |adjacencyOrder| ==> adjacencyOrder[i] in g.adjacency
    ensures forall u :: u in r <==> u in adjacencyOrder && s in g.adjacency[u]
    ensures NoDups(adjacencyOrder) ==> NoDups(r)
  {
    if |adjacencyOrder| == 0 then []
    else
      var u := adjacencyOrder[0];
      var rest := GetDependencies(g, s, adjacencyOrder[1..]);
      if s in g.adjacency[u] then
        assert NoDups(adjacencyOrder) ==> u !in adjacencyOrder[1..] && NoDups(adjacencyOrder[1..]);
        [u] + rest
      else rest
  }

  // ---------------------------------------------------------------------
  // Kahn layering
  // ---------------------------------------------------------------------

  /** Releases the dependents of one finished stage: each dependent's working
      in-degree drops by one, and the dependent joins the queue at the moment
      its degree reaches zero. A dependent without an entry is skipped. The
      requirement that no degree would drop below zero is what makes the
      `usize` decrement safe. */
  function Release(deps: seq<Stage>, deg: map<Stage, nat>, queue: seq<Stage>): (r: (map<Stage, nat>, seq<Stage>))
    requires forall v | v in deg :: Count(deps, v) <= deg[v]
    ensures r.0.Keys == deg.Keys
    ensures forall v | v in deg :: r.0[v] == deg[v] - Count(deps, v)
    decreases |deps|
  {
    if |deps| == 0 then (deg, queue)
    else
      var d := deps[0];
      assert forall v :: Count(deps, v) == (if v == d then 1 else 0) + Count(deps[1..], v);
      if d in deg then
        var lowered := deg[d := deg[d] - 1];
        Release(deps[1..], lowered, if lowered[d] == 0 then queue + [d] else queue)
      else
        Release(deps[1..], deg, queue)
  }

  /** A dependent joins the queue exactly when its degree reaches zero, and
      it joins at most once. */
  lemma ReleaseQueue(deps: seq<Stage>, deg: map<Stage, nat>, queue: seq<Stage>)
    requires forall v | v in deg :: Count(deps, v) <= deg[v]
    ensures var r := Release(deps, deg, queue);
      forall v :: v in r.1 <==> v in queue || (v in deg && Count(deps, v) > 0 && r.0[v] == 0)
    ensures NoDups(queue) && (forall x | x in queue :: Count(deps, x) == 0) ==> NoDups(Release(deps, deg, queue).1)
  {
    ReleaseMembers(deps, deg, queue);
    if NoDups(queue) && (forall x | x in queue :: Count(deps, x) == 0) {
      ReleaseNoDups(deps, deg, queue);
    }
  }

  /** Occurrences in a non-empty sequence: the head's, plus the tail's. */
  lemma CountHead<T>(s: seq<T>)
    requires |s| > 0
    ensures forall v :: Count(s, v) == (if v == s[0] then 1 else 0) + Count(s[1..], v)
  {
  }

  /** How `Release` treats the first dependent. */
  lemma ReleaseHead(deps: seq<Stage>, deg: map<Stage, nat>, queue: seq<Stage>)
    requires |deps| > 0 && forall v | v in deg :: Count(deps, v) <= deg[v]
    ensures forall v :: Count(deps, v) == (if v == deps[0] then 1 else 0) + Count(deps[1..], v)
    ensures deps[0] in deg ==> deg[deps[0]] > 0
    ensures deps[0] in deg ==>
      var lowered := deg[deps[0] := deg[deps[0]] - 1];
      && (forall v | v in lowered :: Count(deps[1..], v) <= lowered[v])
      && Release(deps, deg, queue) == Release(deps[1..], lowered, if lowered[deps[0]] == 0 then queue + [deps[0]] else queue)
    ensures deps[0] !in deg ==>
      && (forall v | v in deg :: Count(deps[1..], v) <= deg[v])
      && Release(deps, deg, queue) == Release(deps[1..], deg, queue)
  {
    CountHead(deps);
  }

  lemma {:induction false} ReleaseMembers(deps: seq<Stage>, deg: map<Stage, nat>, queue: seq<Stage>)
    requires forall v | v in deg :: Count(deps, v) <= deg[v]
    ensures var r := Release(deps, deg, queue);
      forall v :: v in r.1 <==> v in queue || (v in deg && Count(deps, v) > 0 && r.0[v] == 0)
    decreases |deps|
  {
    if |deps| > 0 {
      var d, tail := deps[0], deps[1..];
      ReleaseHead(deps, deg, queue);
      if d in deg {
        var lowered := deg[d := deg[d] - 1];
        var queue' := if lowered[d] == 0 then queue + [d] else queue;
        ReleaseMembers(tail, lowered, queue');
        var r := Release(tail, lowered, queue');
        ReleaseHeadMembers(deps, deg, queue, r.0, r.1);
      } else {
        ReleaseMembers(tail, deg, queue);
      }
    }
  }

  /** The step of `ReleaseMembers` for a head with a degree entry, stated
      over the outcome of releasing the tail. */
  lemma ReleaseHeadMembers(deps: seq<Stage>, deg: map<Stage, nat>, queue: seq<Stage>, out: map<Stage, nat>, outQueue: seq<Stage>)
    requires |deps| > 0 && deps[0] in deg && deg[deps[0]] > 0
    requires forall v :: Count(deps, v) == (if v == deps[0] then 1 else 0) + Count(deps[1..], v)
    requires forall v | v in deg :: Count(deps, v) <= deg[v]
    requires var lowered := deg[deps[0] := deg[deps[0]] - 1];
      && out.Keys == lowered.Keys
      && (forall v | v in lowered :: out[v] == lowered[v] - Count(deps[1..], v))
      && forall v :: v in outQueue <==>
           (v in (if lowered[deps[0]] == 0 then queue + [deps[0]] else queue)
            || (v in lowered && Count(deps[1..], v) > 0 && out[v] == 0))
    ensures forall v :: v in outQueue <==> v in queue || (v in deg && Count(deps, v) > 0 && out[v] == 0)
  {
    var d := deps[0];
    var lowered := deg[d := deg[d] - 1];
    forall v
      ensures v in outQueue <==> v in queue || (v in deg && Count(deps, v) > 0 && out[v] == 0)
    {
      if v == d {
        assert v in queue + [d];
      } else {
        assert v in queue + [d] <==> v in queue;
        assert v in lowered <==> v in deg;
      }
    }
  }

  lemma {:induction false} ReleaseNoDups(deps: seq<Stage>, deg: map<Stage, nat>, queue: seq<Stage>)
    requires forall v | v in deg :: Count(deps, v) <= deg[v]
    requires NoDups(queue) && forall x | x in queue :: Count(deps, x) == 0
    ensures NoDups(Release(deps, deg, queue).1)
    decreases |deps|
  {
    if |deps| > 0 {
      var d, tail := deps[0], deps[1..];
      ReleaseHead(deps, deg, queue);
      if d in deg {
        var lowered := deg[d := deg[d] - 1];
        var queue' := if lowered[d] == 0 then queue + [d] else queue;
        if lowered[d] == 0 {
          assert d !in queue;
          NoDupsAppend(queue, [d]);
          assert forall x | x in queue' :: x in queue || x == d;
        }
        ReleaseNoDups(tail, lowered, queue');
      } else {
        ReleaseNoDups(tail, deg, queue);
      }
    }
  }


  /** Number of edges into `v` whose source is listed in `layer`. */
  function LayerCount(g: Graph, layer: seq<Stage>, v: Stage): nat
  {
    if |layer| == 0 then 0 else Count(Dependents(g, layer[0]), v) + LayerCount(g, layer[1..], v)
  }

  /** One round of the main loop: every stage of the current layer, in queue
      order, releases its dependents; the stages released form the queue of
      the next round. */
  function ProcessLayer(g: Graph, layer: seq<Stage>, deg: map<Stage, nat>, queue: seq<Stage>): (r: (map<Stage, nat>, seq<Stage>))
    requires forall v | v in deg :: LayerCount(g, layer, v) <= deg[v]
    ensures r.0.Keys == deg.Keys
    ensures forall v | v in deg :: r.0[v] == deg[v] - LayerCount(g, layer, v)
    decreases |layer|
  {
    if |layer| == 0 then (deg, queue)
    else
      assert forall v :: LayerCount(g, layer, v) == Count(Dependents(g, layer[0]), v) + LayerCount(g, layer[1..], v);
      var step := Release(Dependents(g, layer[0]), deg, queue);
      ProcessLayer(g, layer[1..], step.0, step.1)
  }

  /** The stages queued by a round are those whose degree the round brought
      to zero, each once. */
  lemma {:induction false} ProcessLayerQueue(g: Graph, layer: seq<Stage>, deg: map<Stage, nat>, queue: seq<Stage>)
    requires forall v | v in deg :: LayerCount(g, layer, v) <= deg[v]
    ensures var r := ProcessLayer(g, layer, deg, queue);
      forall v :: v in r.1 <==> v in queue || (v in deg && LayerCount(g, layer, v) > 0 && r.0[v] == 0)
    ensures NoDups(queue) && (forall x | x in queue :: LayerCount(g, layer, x) == 0) ==> NoDups(ProcessLayer(g, layer, deg, queue).1)
    decreases |layer|
  {
    if |layer| > 0 {
      assert forall v :: LayerCount(g, layer, v) == Count(Dependents(g, layer[0]), v) + LayerCount(g, layer[1..], v);
      ReleaseQueue(Dependents(g, layer[0]), deg, queue);
      var step := Release(Dependents(g, layer[0]), deg, queue);
      ProcessLayerQueue(g, layer[1..], step.0, step.1);
    }
  }

  /** Finishing the stages of `layer` removes exactly their edges from the
      pending count. */
  lemma {:induction false} PendingAfterLayer(g: Graph, done: set<Stage>, layer: seq<Stage>, v: Stage)
    requires NoDups(layer)
    requires forall x | x in layer :: x !in done
    ensures Pending(g, done + Elems(layer), v) + LayerCount(g, layer, v) == Pending(g, done, v)
    decreases |layer|
  {
    if |layer| > 0 {
      AllIsEnumeration();
      NoDupsTail(layer);
      var u := layer[0];
      CountFromRemove(g, All(), done, u, v);
      PendingAfterLayer(g, done + {u}, layer[1..], v);
      assert done + {u} + Elems(layer[1..]) == done + Elems(layer);
    } else {
      assert done + Elems(layer) == done;
    }
  }

  /** The state at the top of the main loop: `deg` holds, for every stage,
      the number of edges into it from unfinished stages; finished stages
      have degree 0; and the queue holds, once each, exactly the unfinished
      stages of degree 0. */
  predicate DrainInv(g: Graph, deg: map<Stage, nat>, queue: seq<Stage>, done: set<Stage>)
  {
    && Valid(g)
    && done <= g.stages
    && deg.Keys == g.stages
    && (forall v | v in g.stages :: deg[v] == Pending(g, done, v))
    && (forall v | v in done :: deg[v] == 0)
    && NoDups(queue)
    && (forall v :: v in queue <==> v in g.stages && v !in done && deg[v] == 0)
  }

  /** What the main loop leaves behind: the layers, the residual degrees and
      the `processed` counter. */
  datatype Drained = Drained(layers: seq<seq<Stage>>, degrees: map<Stage, nat>, processed: nat)

  /** What the main loop, started from `queue` with `done` finished, hands
      back: residual degrees for every stage; layers that are non-empty,
      repeat no stage, and hold exactly the unfinished stages whose degree
      ends at zero; degrees that count the edges from stages outside
      `done` and the layers; and a first layer that is the starting queue. */
  predicate DrainedFrom(g: Graph, queue: seq<Stage>, done: set<Stage>, r: Drained)
  {
    && done <= g.stages
    && r.degrees.Keys == g.stages
    && r.processed == |Flatten(r.layers)|
    && NoDups(Flatten(r.layers))
    && (forall k :: 0 <= k < |r.layers| ==> |r.layers[k]| > 0)
    && (forall v :: v in Flatten(r.layers) <==> v in g.stages && v !in done && r.degrees[v] == 0)
    && (forall v | v in done :: r.degrees[v] == 0)
    && (forall v | v in g.stages :: r.degrees[v] == Pending(g, done + Elems(Flatten(r.layers)), v))
    && (|queue| == 0 <==> |r.layers| == 0)
    && (|queue| > 0 ==> r.layers[0] == queue)
  }

  /** The main loop of `topological_sort`: while the queue is non-empty, the
      whole queue becomes the next layer and is processed. */
  function Drain(g: Graph, deg: map<Stage, nat>, queue: seq<Stage>, done: set<Stage>): (r: Drained)
    requires DrainInv(g, deg, queue, done)
    ensures DrainedFrom(g, queue, done, r)
    decreases g.stages - done
  {
    if |queue| == 0 then
      assert Elems(Flatten<Stage>([])) == {};
      EmptyUnion(done);
      Drained([], deg, 0)
    else
      var next := done + Elems(queue);
      var step := DrainStep(g, deg, queue, done);
      DrainProgress(g, deg, queue, done);
      var rest := Drain(g, step.0, step.1, next);
      var r := Drained([queue] + rest.layers, rest.degrees, |queue| + rest.processed);
      DrainCombine(g, deg, queue, done, step.1, rest, r);
      r
  }

  /** Each round finishes at least one stage. */
  lemma DrainProgress(g: Graph, deg: map<Stage, nat>, queue: seq<Stage>, done: set<Stage>)
    requires DrainInv(g, deg, queue, done) && |queue| > 0
    ensures g.stages - (done + Elems(queue)) < g.stages - done
  {
    assert queue[0] in g.stages - done;
  }

  /** One round of `Drain`, with the proof that the loop invariant holds for
      the next round. */
  function DrainStep(g: Graph, deg: map<Stage, nat>, queue: seq<Stage>, done: set<Stage>): (r: (map<Stage, nat>, seq<Stage>))
    requires DrainInv(g, deg, queue, done) && |queue| > 0
    ensures DrainInv(g, r.0, r.1, done + Elems(queue))
    ensures forall v :: v in r.1 ==> exists i :: 0 <= i < |queue| && v in Dependents(g, queue[i])
  {
    LayerWithinDegrees(g, deg, queue, done);
    var step := ProcessLayer(g, queue, deg, []);
    DrainStepInv(g, deg, queue, done, step);
    step
  }

  /** A layer never accounts for more edges than its targets' degrees. */
  lemma LayerWithinDegrees(g: Graph, deg: map<Stage, nat>, queue: seq<Stage>, done: set<Stage>)
    requires DrainInv(g, deg, queue, done)
    ensures forall v | v in deg :: LayerCount(g, queue, v) <= deg[v]
  {
    forall v | v in deg ensures LayerCount(g, queue, v) <= deg[v] {
      PendingAfterLayer(g, done, queue, v);
    }
  }

  lemma DrainStepInv(g: Graph, deg: map<Stage, nat>, queue: seq<Stage>, done: set<Stage>, step: (map<Stage, nat>, seq<Stage>))
    requires DrainInv(g, deg, queue, done) && |queue| > 0
    requires forall v | v in deg :: LayerCount(g, queue, v) <= deg[v]
    requires step == ProcessLayer(g, queue, deg, [])
    ensures DrainInv(g, step.0, step.1, done + Elems(queue))
    ensures forall v :: v in step.1 ==> exists i :: 0 <= i < |queue| && v in Dependents(g, queue[i])
  {
    ProcessLayerQueue(g, queue, deg, []);
    var next := done + Elems(queue);
    forall v | v in g.stages ensures step.0[v] == Pending(g, next, v) {
      PendingAfterLayer(g, done, queue, v);
    }
    forall v | v in step.1 ensures exists i :: 0 <= i < |queue| && v in Dependents(g, queue[i]) {
      LayerCountPositive(g, queue, v);
    }
    forall v ensures v in step.1 <==> v in g.stages && v !in next && step.0[v] == 0 {
      if v in g.stages && v !in next {
        PendingAfterLayer(g, done, queue, v);
      }
    }
  }

  lemma {:induction false} LayerCountPositive(g: Graph, layer: seq<Stage>, v: Stage)
    ensures LayerCount(g, layer, v) > 0 <==> exists i :: 0 <= i < |layer| && v in Dependents(g, layer[i])
  {
    if |layer| > 0 {
      LayerCountPositive(g, layer[1..], v);
      CountPositive(Dependents(g, layer[0]), v);
      if exists i :: 0 <= i < |layer| && v in Dependents(g, layer[i]) {
        var i :| 0 <= i < |layer| && v in Dependents(g, layer[i]);
        if i > 0 {
          assert layer[1..][i - 1] == layer[i];
        }
      }
      if exists i :: 0 <= i < |layer[1..]| && v in Dependents(g, layer[1..][i]) {
        var i :| 0 <= i < |layer[1..]| && v in Dependents(g, layer[1..][i]);
        assert layer[i + 1] == layer[1..][i];
      }
    }
  }

  /** The facts `Drain` reports about `[queue] + rest`, from those about `rest`. */
  lemma DrainCombine(g: Graph, deg: map<Stage, nat>, queue: seq<Stage>, done: set<Stage>,
                     queue': seq<Stage>, rest: Drained, r: Drained)
    requires DrainInv(g, deg, queue, done) && |queue| > 0
    requires DrainedFrom(g, queue', done + Elems(queue), rest)
    requires r == Drained([queue] + rest.layers, rest.degrees, |queue| + rest.processed)
    ensures DrainedFrom(g, queue, done, r)
  {
    var final := rest.degrees;
    assert ([queue] + rest.layers)[1..] == rest.layers;
    assert Flatten([queue] + rest.layers) == queue + Flatten(rest.layers);
    NoDupsAppend(queue, Flatten(rest.layers));
    assert done + Elems(queue) + Elems(Flatten(rest.layers)) == done + Elems(queue + Flatten(rest.layers));
    forall k | 0 <= k < |r.layers| ensures |r.layers[k]| > 0 {
      if k > 0 {
        assert r.layers[k] == rest.layers[k - 1];
      }
    }
  }

  /** Every edge between two layers goes from an earlier layer to a
      strictly later one. */
  predicate EdgesForward(g: Graph, layers: seq<seq<Stage>>)
  {
    forall i, j, u, v | 0 <= i < |layers| && 0 <= j < |layers| && u in layers[i] && v in layers[j] ::
      v in Dependents(g, u) ==> i < j
  }

  /** Every stage past the first layer has a predecessor in the layer just
      before its own, so it sits in the earliest layer its edges allow. */
  predicate PredecessorInPreviousLayer(g: Graph, layers: seq<seq<Stage>>)
  {
    forall j | 0 < j < |layers| :: FedBy(g, layers[j - 1], layers[j])
  }

  /** Every stage of `cur` is a dependent of some stage of `prev`. */
  predicate FedBy(g: Graph, prev: seq<Stage>, cur: seq<Stage>)
  {
    forall v | v in cur :: exists u :: u in prev && v in Dependents(g, u)
  }

  /** The shape of the layers `topological_sort` computes: none is empty,
      no stage appears twice, the first layer is exactly the stages of
      in-degree zero, edges point forward, and each stage is in the earliest
      layer possible. */
  predicate Layered(g: Graph, layers: seq<seq<Stage>>)
    requires Valid(g)
  {
    && (forall k :: 0 <= k < |layers| ==> |layers[k]| > 0)
    && NoDups(Flatten(layers))
    && Elems(Flatten(layers)) <= g.stages
    && (forall v | v in g.stages :: (g.inDegree[v] == 0 <==> |layers| > 0 && v in layers[0]))
    && EdgesForward(g, layers)
    && PredecessorInPreviousLayer(g, layers)
  }

  /** The shape of the `CircularDependency` payload: a non-empty set of
      stages, listed once each, every one of which has an edge into it from
      a member (`CountFrom` counts those edges), and which contains every
      dependent of its members. */
  predicate StrandedSet(g: Graph, cycle: seq<Stage>)
  {
    && |cycle| > 0
    && NoDups(cycle)
    && Elems(cycle) <= g.stages
    && (forall v | v in cycle :: CountFrom(g, cycle, {}, v) > 0)
    && (forall u, v | u in cycle && v in Dependents(g, u) :: v in cycle)
  }

  lemma {:induction false} DrainEdgesForward(g: Graph, deg: map<Stage, nat>, queue: seq<Stage>, done: set<Stage>)
    requires DrainInv(g, deg, queue, done)
    ensures EdgesForward(g, Drain(g, deg, queue, done).layers)
    decreases g.stages - done
  {
    if |queue| > 0 {
      var next := done + Elems(queue);
      var step := DrainStep(g, deg, queue, done);
      var rest := Drain(g, step.0, step.1, next);
      var layers := Drain(g, deg, queue, done).layers;
      assert layers == [queue] + rest.layers;
      assert queue[0] in g.stages - done;
      DrainEdgesForward(g, step.0, step.1, next);
      forall i, j, u, v | 0 <= i < |layers| && 0 <= j < |layers| && u in layers[i] && v in layers[j] && v in Dependents(g, u)
        ensures i < j
      {
        if j == 0 {
          assert v in queue;
          if i > 0 {
            assert u in rest.layers[i - 1];
            FlattenMembership(rest.layers, u);
          }
          PendingPositive(g, done, v);
          assert false;
        } else if i > 0 {
          assert u in rest.layers[i - 1] && v in rest.layers[j - 1];
        }
      }
    }
  }

  lemma {:induction false} DrainPredecessors(g: Graph, deg: map<Stage, nat>, queue: seq<Stage>, done: set<Stage>)
    requires DrainInv(g, deg, queue, done)
    ensures PredecessorInPreviousLayer(g, Drain(g, deg, queue, done).layers)
    decreases g.stages - done
  {
    if |queue| > 0 {
      var next := done + Elems(queue);
      var step := DrainStep(g, deg, queue, done);
      var rest := Drain(g, step.0, step.1, next);
      var layers := Drain(g, deg, queue, done).layers;
      assert layers == [queue] + rest.layers;
      assert queue[0] in g.stages - done;
      DrainPredecessors(g, step.0, step.1, next);
      forall j | 0 < j < |layers| ensures FedBy(g, layers[j - 1], layers[j]) {
        if j == 1 {
          forall v | v in layers[1] ensures exists u :: u in layers[0] && v in Dependents(g, u) {
            assert v in step.1;
            var i :| 0 <= i < |queue| && v in Dependents(g, queue[i]);
            assert queue[i] in layers[0];
          }
        } else {
          assert layers[j - 1] == rest.layers[j - 2] && layers[j] == rest.layers[j - 1];
        }
      }
    }
  }

  // ---------------------------------------------------------------------
  // topological_sort
  // ---------------------------------------------------------------------

  /** The first queue: the stages of in-degree zero, in the iteration order
      of the in-degree map. */
  function InitialQueue(order: seq<Stage>, inDegree: map<Stage, nat>): (q: seq<Stage>)
    requires forall i :: 0 <= i < |order| ==> order[i] in inDegree
    ensures forall v :: v in q <==> v in order && inDegree[v] == 0
    ensures NoDups(order) ==> NoDups(q)
  {
    if |order| == 0 then []
    else
      var rest := InitialQueue(order[1..], inDegree);
      assert NoDups(order) ==> NoDups(order[1..]) && order[0] !in order[1..] by {
        if NoDups(order) {
          NoDupsTail(order);
        }
      }
      if inDegree[order[0]] == 0 then [order[0]] + rest else rest
  }

  /** The `CircularDependency` payload: the stages, in the iteration order
      of the stage set, whose residual degree is still positive. */
  function Stranded(order: seq<Stage>, degrees: map<Stage, nat>): (p: seq<Stage>)
    ensures forall v :: v in p <==> v in order && v in degrees && degrees[v] > 0
    ensures NoDups(order) ==> NoDups(p)
  {
    if |order| == 0 then []
    else
      var rest := Stranded(order[1..], degrees);
      assert NoDups(order) ==> NoDups(order[1..]) && order[0] !in order[1..] by {
        if NoDups(order) {
          NoDupsTail(order);
        }
      }
      if order[0] in degrees && degrees[order[0]] > 0 then [order[0]] + rest else rest
  }

  /** The main loop run from the initial queue. */
  function Run(g: Graph, degreeOrder: seq<Stage>): Drained
    requires Valid(g) && IsEnumeration(degreeOrder, g.inDegree.Keys)
  {
    var queue := InitialQueue(degreeOrder, g.inDegree);
    assert DrainInv(g, g.inDegree, queue, {});
    Drain(g, g.inDegree, queue, {})
  }

  /** The run's layers have the `Layered` shape. */
  lemma RunLayered(g: Graph, degreeOrder: seq<Stage>)
    requires Valid(g) && IsEnumeration(degreeOrder, g.inDegree.Keys)
    ensures Layered(g, Run(g, degreeOrder).layers)
  {
    var queue := InitialQueue(degreeOrder, g.inDegree);
    var run := Run(g, degreeOrder);
    DrainEdgesForward(g, g.inDegree, queue, {});
    DrainPredecessors(g, g.inDegree, queue, {});
    assert |queue| > 0 ==> run.layers[0] == queue;
  }

  /** The run released exactly the stages whose residual degree is zero, and
      its counter reaches the number of stages exactly when it released them
      all. */
  lemma RunReleased(g: Graph, degreeOrder: seq<Stage>)
    requires Valid(g) && IsEnumeration(degreeOrder, g.inDegree.Keys)
    ensures var run := Run(g, degreeOrder);
      && run.degrees.Keys == g.stages
      && Elems(Flatten(run.layers)) <= g.stages
      && (forall v | v in g.stages :: v in Flatten(run.layers) <==> run.degrees[v] == 0)
      && (run.processed == |g.stages| <==> Elems(Flatten(run.layers)) == g.stages)
  {
    var run := Run(g, degreeOrder);
    var flat := Flatten(run.layers);
    NoDupsCard(flat);
    SubsetCard(Elems(flat), g.stages);
  }

  /** The residual degree of a stage is the number of its edges from
      stages the run did not release. */
  lemma RunDegrees(g: Graph, degreeOrder: seq<Stage>)
    requires Valid(g) && IsEnumeration(degreeOrder, g.inDegree.Keys)
    ensures var run := Run(g, degreeOrder);
      forall v | v in g.stages :: run.degrees[v] == Pending(g, Elems(Flatten(run.layers)), v)
  {
    var run := Run(g, degreeOrder);
    assert {} + Elems(Flatten(run.layers)) == Elems(Flatten(run.layers));
  }

  /** `topological_sort`: the layers when every stage was released, else
      `CircularDependency` with the stranded stages. The sort reads the graph
      without changing it. */
  function TopologicalSort(g: Graph, degreeOrder: seq<Stage>, stageOrder: seq<Stage>): (r: Result<seq<seq<Stage>>, GraphError>)
    requires Valid(g)
    requires IsEnumeration(degreeOrder, g.inDegree.Keys)
    requires IsEnumeration(stageOrder, g.stages)
    ensures r.Ok? ==> Layered(g, r.value) && Elems(Flatten(r.value)) == g.stages
    ensures r.Err? ==> r.error.CircularDependency? && StrandedSet(g, r.error.cycle)
    ensures r.Err? ==>
      var released := Run(g, degreeOrder).layers;
      Layered(g, released) && Elems(Flatten(released)) == g.stages - Elems(r.error.cycle)
  {
    var run := Run(g, degreeOrder);
    RunLayered(g, degreeOrder);
    RunReleased(g, degreeOrder);
    if run.processed != |g.stages| then
      var cycle := Stranded(stageOrder, run.degrees);
      StrandedPayload(g, degreeOrder, stageOrder);
      Err(CircularDependency(cycle))
    else
      Ok(run.layers)
  }

  lemma StrandedPayload(g: Graph, degreeOrder: seq<Stage>, stageOrder: seq<Stage>)
    requires Valid(g)
    requires IsEnumeration(degreeOrder, g.inDegree.Keys)
    requires IsEnumeration(stageOrder, g.stages)
    requires Run(g, degreeOrder).processed != |g.stages|
    ensures var run := Run(g, degreeOrder);
      var cycle := Stranded(stageOrder, run.degrees);
      StrandedSet(g, cycle) && Elems(Flatten(run.layers)) == g.stages - Elems(cycle)
  {
    var run := Run(g, degreeOrder);
    RunReleased(g, degreeOrder);
    RunDegrees(g, degreeOrder);
    PayloadShape(g, Elems(Flatten(run.layers)), run.degrees, stageOrder);
  }

  lemma PayloadShape(g: Graph, released: set<Stage>, degrees: map<Stage, nat>, stageOrder: seq<Stage>)
    requires Valid(g) && released < g.stages && degrees.Keys == g.stages
    requires IsEnumeration(stageOrder, g.stages)
    requires forall v | v in g.stages :: (v in released <==> degrees[v] == 0)
    requires forall v | v in g.stages :: degrees[v] == Pending(g, released, v)
    ensures StrandedSet(g, Stranded(stageOrder, degrees))
    ensures released == g.stages - Elems(Stranded(stageOrder, degrees))
  {
    var cycle := Stranded(stageOrder, degrees);
    assert forall v :: v in cycle <==> v in g.stages && v !in released;
    var v :| v in g.stages && v !in released;
    assert v in cycle;
    forall w | w in cycle ensures CountFrom(g, cycle, {}, w) > 0 {
      StrandedPending(g, released, cycle, w);
    }
    forall u, w | u in cycle && w in Dependents(g, u) ensures w in cycle {
      StrandedClosed(g, released, cycle, u, w);
    }
  }

  /** A stranded stage still has an edge from some stranded stage. */
  lemma StrandedPending(g: Graph, released: set<Stage>, cycle: seq<Stage>, w: Stage)
    requires g.adjacency.Keys == g.stages
    requires forall v :: v in cycle <==> v in g.stages && v !in released
    requires w in cycle && Pending(g, released, w) > 0
    ensures CountFrom(g, cycle, {}, w) > 0
  {
    PendingPositive(g, released, w);
    var u :| u !in released && w in Dependents(g, u);
    assert u in g.adjacency;
    assert u in cycle;
    var k :| 0 <= k < |cycle| && cycle[k] == u;
    CountFromPositive(g, cycle, {}, w);
  }

  /** A dependent of a stranded stage is stranded too. */
  lemma StrandedClosed(g: Graph, released: set<Stage>, cycle: seq<Stage>, u: Stage, w: Stage)
    requires Valid(g)
    requires forall v | v in g.stages :: (v in released <==> Pending(g, released, v) == 0)
    requires forall v :: v in cycle <==> v in g.stages && v !in released
    requires u in cycle && w in Dependents(g, u)
    ensures w in cycle
  {
    assert w in g.stages;
    PendingPositive(g, released, w);
  }

  // ---------------------------------------------------------------------
  // Consequences
  // ---------------------------------------------------------------------

  /** `walk` follows edges of `g`, each stage a dependent of the one before,
      and returns to where it started. */
  predicate IsClosedWalk(g: Graph, walk: seq<Stage>)
  {
    && |walk| > 1
    && walk[0] == walk[|walk| - 1]
    && (forall k :: 0 < k < |walk| ==> walk[k] in Dependents(g, walk[k - 1]))
  }

  /** The index of the layer holding `v`. */
  function LayerIndex(layers: seq<seq<Stage>>, v: Stage): (i: nat)
    requires v in Flatten(layers)
    ensures i < |layers| && v in layers[i]
  {
    if v in layers[0] then 0
    else
      assert Flatten(layers) == layers[0] + Flatten(layers[1..]);
      1 + LayerIndex(layers[1..], v)
  }

  lemma {:induction false} WalkClimbsLayers(g: Graph, layers: seq<seq<Stage>>, walk: seq<Stage>, k: nat)
    requires Valid(g) && Layered(g, layers) && Elems(Flatten(layers)) == g.stages
    requires 0 < |walk| && k < |walk|
    requires walk[0] in g.stages
    requires forall i :: 0 < i < |walk| ==> walk[i] in Dependents(g, walk[i - 1])
    ensures walk[k] in Flatten(layers)
    ensures LayerIndex(layers, walk[0]) + k <= LayerIndex(layers, walk[k])
  {
    if k > 0 {
      WalkClimbsLayers(g, layers, walk, k - 1);
      var u, v := walk[k - 1], walk[k];
      assert v in Dependents(g, u);
      assert u in g.adjacency;
      assert v in Elems(Flatten(layers));
    } else {
      assert walk[0] in Elems(Flatten(layers));
    }
  }

  /** A sequence of more than eight stages repeats one. */
  lemma Pigeonhole(s: seq<Stage>)
    requires |s| > |All()|
    ensures !NoDups(s)
  {
    if NoDups(s) {
      AllIsEnumeration();
      NoDupsCard(s);
      NoDupsCard(All());
      SubsetCard(Elems(s), Elems(All()));
    }
  }

  /** A walk of `n + 1` stages of a stranded set ending at `v`, found by
      stepping to a predecessor inside the set `n` times. */
  ghost function BackWalk(g: Graph, cycle: seq<Stage>, v: Stage, n: nat): (walk: seq<Stage>)
    requires StrandedSet(g, cycle) && v in cycle
    ensures |walk| == n + 1 && walk[n] == v
    ensures forall i :: 0 <= i < |walk| ==> walk[i] in cycle
    ensures forall i :: 0 < i < |walk| ==> walk[i] in Dependents(g, walk[i - 1])
    decreases n
  {
    if n == 0 then [v]
    else
      CountFromPositive(g, cycle, {}, v);
      var k :| 0 <= k < |cycle| && cycle[k] !in {} && v in Dependents(g, cycle[k]);
      BackWalk(g, cycle, cycle[k], n - 1) + [v]
  }

  /** No closed walk survives a layering of all the stages. */
  lemma LayeringHasNoClosedWalk(g: Graph, layers: seq<seq<Stage>>, walk: seq<Stage>)
    requires Valid(g) && Layered(g, layers) && Elems(Flatten(layers)) == g.stages
    ensures !IsClosedWalk(g, walk)
  {
    if IsClosedWalk(g, walk) {
      var last := |walk| - 1;
      assert walk[last] in Dependents(g, walk[last - 1]);
      assert walk[last - 1] in g.adjacency;
      WalkClimbsLayers(g, layers, walk, last);
    }
  }

  /** A stranded set holds a closed walk. */
  lemma StrandedSetHasClosedWalk(g: Graph, cycle: seq<Stage>) returns (closed: seq<Stage>)
    requires StrandedSet(g, cycle)
    ensures IsClosedWalk(g, closed)
    ensures forall k :: 0 <= k < |closed| ==> closed[k] in cycle
  {
    var walk := BackWalk(g, cycle, cycle[0], |All()|);
    Pigeonhole(walk);
    var i, j :| 0 <= i < j < |walk| && walk[i] == walk[j];
    closed := walk[i..j + 1];
    forall k | 0 < k < |closed| ensures closed[k] in Dependents(g, closed[k - 1]) {
      assert closed[k] == walk[i + k] && closed[k - 1] == walk[i + k - 1];
    }
  }

  /** Sorting fails exactly when the graph has a closed walk (a self-loop
      is one of two stages); the failure's payload then holds one. */
  lemma SortFailsIffCycle(g: Graph, degreeOrder: seq<Stage>, stageOrder: seq<Stage>)
    requires Valid(g)
    requires IsEnumeration(degreeOrder, g.inDegree.Keys)
    requires IsEnumeration(stageOrder, g.stages)
    ensures TopologicalSort(g, degreeOrder, stageOrder).Err? <==> exists walk :: IsClosedWalk(g, walk)
  {
    var r := TopologicalSort(g, degreeOrder, stageOrder);
    if r.Ok? {
      forall walk ensures !IsClosedWalk(g, walk) {
        LayeringHasNoClosedWalk(g, r.value, walk);
      }
    } else {
      var closed := StrandedSetHasClosedWalk(g, r.error.cycle);
    }
  }

  /** A graph whose every edge is a default dependency has no closed walk. */
  lemma DefaultEdgesAcyclic(g: Graph, walk: seq<Stage>)
    requires forall u, v :: v in Dependents(g, u) ==> u in DefaultDependencies(v)
    ensures !IsClosedWalk(g, walk)
  {
    if IsClosedWalk(g, walk) {
      assert IsDependencyPath(walk) by {
        forall k | 0 < k < |walk| ensures walk[k - 1] in DefaultDependencies(walk[k]) {
          assert walk[k] in Dependents(g, walk[k - 1]);
        }
      }
      DefaultDependenciesAcyclic(walk);
    }
  }

  /** A graph built by `from_stages` always sorts: the default dependencies
      have no cycle. */
  lemma FromStagesSorts(requested: seq<Stage>, degreeOrder: seq<Stage>, stageOrder: seq<Stage>)
    requires IsEnumeration(degreeOrder, FromStages(requested).inDegree.Keys)
    requires IsEnumeration(stageOrder, FromStages(requested).stages)
    ensures TopologicalSort(FromStages(requested), degreeOrder, stageOrder).Ok?
  {
    var g := FromStages(requested);
    assert Valid(g);
    FromStagesAcyclic(requested);
    SortFailsIffCycle(g, degreeOrder, stageOrder);
  }

  lemma FromStagesAcyclic(requested: seq<Stage>)
    ensures forall walk :: !IsClosedWalk(FromStages(requested), walk)
  {
    var g := FromStages(requested);
    forall walk ensures !IsClosedWalk(g, walk) {
      DefaultEdgesAcyclic(g, walk);
    }
  }

  /** An empty graph sorts to no layers. */
  lemma EmptyGraphSorts(g: Graph, degreeOrder: seq<Stage>, stageOrder: seq<Stage>)
    requires Valid(g) && g.stages == {}
    requires IsEnumeration(degreeOrder, g.inDegree.Keys)
    requires IsEnumeration(stageOrder, g.stages)
    ensures TopologicalSort(g, degreeOrder, stageOrder) == Ok([])
  {
    NoDupsCard(degreeOrder);
    assert Elems(degreeOrder) <= g.inDegree.Keys;
  }

  /** The only layering of a single stage is one layer holding it. */
  lemma SingleLayer(g: Graph, s: Stage, layers: seq<seq<Stage>>)
    requires Valid(g) && g.stages == {s}
    requires Layered(g, layers) && Elems(Flatten(layers)) == {s}
    ensures layers == [[s]]
  {
    assert s in Flatten(layers);
    assert |layers| > 0;
    assert Flatten(layers) == layers[0] + Flatten(layers[1..]);
    NoDupsCard(Flatten(layers));
    assert |Flatten(layers)| == 1;
    assert |layers[0]| == 1 && layers[0][0] in Elems(Flatten(layers));
    if |layers| > 1 {
      assert false;
    }
    assert layers[0] == [s];
    assert layers == [layers[0]];
  }

  /** A graph holding one stage and no edge sorts to one layer of it. */
  lemma SingleStageSorts(s: Stage, degreeOrder: seq<Stage>, stageOrder: seq<Stage>)
    requires IsEnumeration(degreeOrder, AddStage(New(), s).inDegree.Keys)
    requires IsEnumeration(stageOrder, AddStage(New(), s).stages)
    ensures Valid(AddStage(New(), s)) && TopologicalSort(AddStage(New(), s), degreeOrder, stageOrder) == Ok([[s]])
  {
    var g := AddStage(New(), s);
    AddStagePreservesValid(New(), s);
    SortFailsIffCycle(g, degreeOrder, stageOrder);
    forall walk ensures !IsClosedWalk(g, walk) {
      assert forall u :: Dependents(g, u) == [];
      if |walk| > 1 {
        assert walk[1] !in Dependents(g, walk[0]);
      }
    }
    SingleLayer(g, s, TopologicalSort(g, degreeOrder, stageOrder).value);
  }

  /** `get_dependencies(s)` is empty exactly when `s` has in-degree zero. */
  lemma DependenciesMatchInDegree(g: Graph, s: Stage, adjacencyOrder: seq<Stage>)
    requires Valid(g) && s in g.stages
    requires IsEnumeration(adjacencyOrder, g.adjacency.Keys)
    ensures |GetDependencies(g, s, adjacencyOrder)| > 0 <==> g.inDegree[s] > 0
  {
    PendingPositive(g, {}, s);
    var r := GetDependencies(g, s, adjacencyOrder);
    if |r| > 0 {
      assert r[0] in r;
      assert s in Dependents(g, r[0]);
    }
    if g.inDegree[s] > 0 {
      var u :| u !in {} && s in Dependents(g, u);
      assert u in r;
    }
  }

  /** The unfinished stages none of whose predecessors is still unfinished. */
  ghost function Ready(g: Graph, done: set<Stage>): set<Stage>
  {
    set v | v in g.stages && v !in done && Pending(g, done, v) == 0
  }

  /** The rounds of the layering as sets, defined without any queue: each
      round is everything ready once the earlier rounds are finished. */
  ghost function Rounds(g: Graph, done: set<Stage>): seq<set<Stage>>
    decreases g.stages - done
  {
    var ready := Ready(g, done);
    if ready == {} then [] else [ready] + Rounds(g, done + ready)
  }

  /** The stages finished once no round is left. */
  ghost function Settled(g: Graph, done: set<Stage>): set<Stage>
    decreases g.stages - done
  {
    var ready := Ready(g, done);
    if ready == {} then done else Settled(g, done + ready)
  }

  /** Whatever order the queue holds its stages in, the main loop produces,
      layer by layer, the rounds of ready stages, and finishes exactly the
      settled stages. */
  lemma {:induction false} DrainRounds(g: Graph, deg: map<Stage, nat>, queue: seq<Stage>, done: set<Stage>)
    requires DrainInv(g, deg, queue, done)
    ensures var r := Drain(g, deg, queue, done);
      && |r.layers| == |Rounds(g, done)|
      && (forall k :: 0 <= k < |r.layers| ==> Elems(r.layers[k]) == Rounds(g, done)[k])
      && done + Elems(Flatten(r.layers)) == Settled(g, done)
    decreases g.stages - done
  {
    assert Elems(queue) == Ready(g, done);
    if |queue| > 0 {
      var next := done + Elems(queue);
      var step := DrainStep(g, deg, queue, done);
      DrainRounds(g, step.0, step.1, next);
      var rest := Drain(g, step.0, step.1, next);
      assert Drain(g, deg, queue, done).layers == [queue] + rest.layers;
      RoundsCons(g, done, queue, rest.layers);
    } else {
      assert Elems(Flatten<Stage>([])) == {};
      EmptyUnion(done);
    }
  }

  /** Prefixing the rounds after `queue` with `queue` itself gives the rounds
      from before it. */
  lemma RoundsCons(g: Graph, done: set<Stage>, queue: seq<Stage>, rest: seq<seq<Stage>>)
    requires |queue| > 0 && Elems(queue) == Ready(g, done)
    requires var next := done + Elems(queue);
      && |rest| == |Rounds(g, next)|
      && (forall k :: 0 <= k < |rest| ==> Elems(rest[k]) == Rounds(g, next)[k])
      && next + Elems(Flatten(rest)) == Settled(g, next)
    ensures var layers := [queue] + rest;
      && |layers| == |Rounds(g, done)|
      && (forall k :: 0 <= k < |layers| ==> Elems(layers[k]) == Rounds(g, done)[k])
      && done + Elems(Flatten(layers)) == Settled(g, done)
  {
    var next := done + Elems(queue);
    var layers := [queue] + rest;
    assert queue[0] in Ready(g, done);
    assert Rounds(g, done) == [Elems(queue)] + Rounds(g, next);
    assert Settled(g, done) == Settled(g, next);
    assert Flatten(layers) == queue + Flatten(rest) by {
      assert layers[1..] == rest;
    }
    ElemsAppend(queue, Flatten(rest));
    forall k | 0 <= k < |layers| ensures Elems(layers[k]) == Rounds(g, done)[k] {
      if k > 0 {
        assert layers[k] == rest[k - 1];
      }
    }
  }

  /** The residual degrees once every settled stage is finished. */
  ghost function Residual(g: Graph): map<Stage, nat>
  {
    map v | v in g.stages :: Pending(g, Settled(g, {}), v)
  }

  /** A run yields the rounds of ready stages and finishes the settled
      stages, whatever the initial queue order. */
  lemma RunRounds(g: Graph, degreeOrder: seq<Stage>)
    requires Valid(g) && IsEnumeration(degreeOrder, g.inDegree.Keys)
    ensures var r := Run(g, degreeOrder);
      && |r.layers| == |Rounds(g, {})|
      && (forall k :: 0 <= k < |r.layers| ==> Elems(r.layers[k]) == Rounds(g, {})[k])
      && Elems(Flatten(r.layers)) == Settled(g, {})
  {
    RunIsDrain(g, degreeOrder);
    DrainRounds(g, g.inDegree, InitialQueue(degreeOrder, g.inDegree), {});
    EmptyUnion(Elems(Flatten(Run(g, degreeOrder).layers)));
  }

  /** A run is the main loop started from the initial queue. */
  lemma RunIsDrain(g: Graph, degreeOrder: seq<Stage>)
    requires Valid(g) && IsEnumeration(degreeOrder, g.inDegree.Keys)
    ensures DrainInv(g, g.inDegree, InitialQueue(degreeOrder, g.inDegree), {})
    ensures Run(g, degreeOrder) == Drain(g, g.inDegree, InitialQueue(degreeOrder, g.inDegree), {})
  {
  }

  /** A run leaves the residual degrees and counts the settled stages. */
  lemma RunResidual(g: Graph, degreeOrder: seq<Stage>)
    requires Valid(g) && IsEnumeration(degreeOrder, g.inDegree.Keys)
    ensures Run(g, degreeOrder).degrees == Residual(g)
    ensures Run(g, degreeOrder).processed == |Settled(g, {})|
  {
    RunRounds(g, degreeOrder);
    RunReleased(g, degreeOrder);
    RunDegrees(g, degreeOrder);
    var r := Run(g, degreeOrder);
    NoDupsCard(Flatten(r.layers));
    assert forall v | v in g.stages :: r.degrees[v] == Residual(g)[v];
  }

  lemma RunOrderIrrelevant(g: Graph, degreeOrder1: seq<Stage>, degreeOrder2: seq<Stage>)
    requires Valid(g)
    requires IsEnumeration(degreeOrder1, g.inDegree.Keys) && IsEnumeration(degreeOrder2, g.inDegree.Keys)
    ensures var r1, r2 := Run(g, degreeOrder1), Run(g, degreeOrder2);
      && |r1.layers| == |r2.layers|
      && (forall k :: 0 <= k < |r1.layers| ==> Elems(r1.layers[k]) == Elems(r2.layers[k]))
      && r1.degrees == r2.degrees
      && r1.processed == r2.processed
  {
    RunRounds(g, degreeOrder1);
    RunRounds(g, degreeOrder2);
    RunResidual(g, degreeOrder1);
    RunResidual(g, degreeOrder2);
  }

  /** The sort succeeds exactly when every stage settles; its layers are
      then the rounds of ready stages, and otherwise the payload holds
      exactly the stages that never settle. */
  lemma SortRounds(g: Graph, degreeOrder: seq<Stage>, stageOrder: seq<Stage>)
    requires Valid(g)
    requires IsEnumeration(degreeOrder, g.inDegree.Keys)
    requires IsEnumeration(stageOrder, g.stages)
    ensures var r := TopologicalSort(g, degreeOrder, stageOrder);
      && (r.Ok? <==> Settled(g, {}) == g.stages)
      && (r.Ok? ==> |r.value| == |Rounds(g, {})|
                    && forall k :: 0 <= k < |r.value| ==> Elems(r.value[k]) == Rounds(g, {})[k])
      && (r.Err? ==> Elems(r.error.cycle) == g.stages - Settled(g, {}))
  {
    RunRounds(g, degreeOrder);
    RunReleased(g, degreeOrder);
    var r := TopologicalSort(g, degreeOrder, stageOrder);
    assert r.Ok? ==> r.value == Run(g, degreeOrder).layers;
  }

  /** The iteration orders of the hash containers decide only the order
      inside each layer and inside the payload: whether the sort succeeds,
      how many layers it yields and which stages each layer holds do not
      depend on them. */
  lemma SortOrderIrrelevant(g: Graph, degreeOrder1: seq<Stage>, stageOrder1: seq<Stage>,
                            degreeOrder2: seq<Stage>, stageOrder2: seq<Stage>)
    requires Valid(g)
    requires IsEnumeration(degreeOrder1, g.inDegree.Keys) && IsEnumeration(stageOrder1, g.stages)
    requires IsEnumeration(degreeOrder2, g.inDegree.Keys) && IsEnumeration(stageOrder2, g.stages)
    ensures var r1, r2 := TopologicalSort(g, degreeOrder1, stageOrder1), TopologicalSort(g, degreeOrder2, stageOrder2);
      && (r1.Ok? <==> r2.Ok?)
      && (r1.Ok? ==> |r1.value| == |r2.value|
                     && forall k :: 0 <= k < |r1.value| ==> Elems(r1.value[k]) == Elems(r2.value[k]))
      && (r1.Err? ==> Elems(r1.error.cycle) == Elems(r2.error.cycle))
  {
    SortRounds(g, degreeOrder1, stageOrder1);
    SortRounds(g, degreeOrder2, stageOrder2);
  }
}
