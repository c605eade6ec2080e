/**
 * The `LogicalProgram` graph queries and the one mutator: task counts,
 * sources, tasks per operator, parallelism overrides, and the projection
 * onto the monitoring API's job graph.
 */
module Queries {
  import Api
  import opened Logical

  // ---------------------------------------------------------------- task_count

  /** The sum of `parallelism` over a node sequence. */
  function SumParallelism(nodes: seq<LogicalNode>): nat {
    if nodes == [] then 0 else nodes[0].parallelism + SumParallelism(nodes[1..])
  }

  /** A sum of parallelisms is zero exactly when every node has parallelism zero. */
  lemma {:induction false} SumParallelismZeroIff(nodes: seq<LogicalNode>)
    ensures SumParallelism(nodes) == 0 <==> forall i :: 0 <= i < |nodes| ==> nodes[i].parallelism == 0
  {
    if nodes != [] {
      SumParallelismZeroIff(nodes[1..]);
      assert forall i :: 1 <= i < |nodes| ==> nodes[i] == nodes[1..][i - 1];
    }
  }

  /**
   * `task_count`: the number of parallel task instances of the whole program.
   * It is zero exactly when every operator runs with parallelism zero.
   */
  function TaskCount<S, T>(p: LogicalProgram<S, T>): (r: nat)
    ensures r == 0 <==> forall i :: 0 <= i < |p.graph.nodes| ==> p.graph.nodes[i].parallelism == 0
  {
    SumParallelismZeroIff(p.graph.nodes);
    SumParallelism(p.graph.nodes)
  }

  /** Every node's parallelism is part of `TaskCount`. */
  lemma {:induction false} NodeTasksWithinTaskCount(nodes: seq<LogicalNode>, i: nat)
    requires i < |nodes|
    ensures nodes[i].parallelism <= SumParallelism(nodes)
  {
    if i > 0 {
      NodeTasksWithinTaskCount(nodes[1..], i - 1);
    }
  }

  /** Changing one node's parallelism changes `TaskCount` by exactly the difference. */
  lemma {:induction false} TaskCountPointUpdate(nodes: seq<LogicalNode>, i: nat, v: nat)
    requires i < |nodes|
    ensures SumParallelism(nodes[i := nodes[i].(parallelism := v)])
            == SumParallelism(nodes) - nodes[i].parallelism + v
  {
    var updated := nodes[i := nodes[i].(parallelism := v)];
    if i > 0 {
      assert updated[1..] == nodes[1..][i - 1 := nodes[i].(parallelism := v)];
      TaskCountPointUpdate(nodes[1..], i - 1, v);
    } else {
      assert updated[1..] == nodes[1..];
    }
  }

  // ---------------------------------------------------------------- sources

  /** The positions of nodes that are the target of some edge. */
  function Targets<S>(edges: seq<GraphEdge<S>>): set<nat> {
    if edges == [] then {} else {edges[0].target} + Targets(edges[1..])
  }

  /** Node `i` is the target of at least one edge. */
  ghost predicate HasIncoming<S>(g: LogicalGraph<S>, i: nat) {
    exists k :: 0 <= k < |g.edges| && g.edges[k].target == i
  }

  /**
   * `sources`: the operator ids of the nodes with no incoming edge; every
   * source is some node's id, and without edges every node is a source.
   */
  function Sources<S>(g: LogicalGraph<S>): (r: set<string>)
    ensures forall id :: id in r ==> exists i :: 0 <= i < |g.nodes| && g.nodes[i].operatorId == id
    ensures g.edges == [] ==> r == NodeIds(g.nodes)
  {
    set i | 0 <= i < |g.nodes| && i !in Targets(g.edges) :: g.nodes[i].operatorId
  }

  /** `Targets` collects exactly the edge targets. */
  lemma {:induction false} TargetsSpec<S>(edges: seq<GraphEdge<S>>, i: nat)
    ensures i in Targets(edges) <==> exists k :: 0 <= k < |edges| && edges[k].target == i
  {
    if edges != [] {
      TargetsSpec(edges[1..], i);
      if i in Targets(edges[1..]) {
        var k :| 0 <= k < |edges[1..]| && edges[1..][k].target == i;
        assert edges[k + 1].target == i;
      }
      if k :| 0 <= k < |edges| && edges[k].target == i {
        if k > 0 {
          assert edges[1..][k - 1].target == i;
        }
      }
    }
  }

  /** An id is a source exactly when some node carrying it has in-degree zero. */
  lemma SourcesSpec<S>(g: LogicalGraph<S>, id: string)
    ensures id in Sources(g) <==>
            exists i :: 0 <= i < |g.nodes| && g.nodes[i].operatorId == id && !HasIncoming(g, i)
  {
    forall i | 0 <= i < |g.nodes|
      ensures i in Targets(g.edges) <==> HasIncoming(g, i)
    {
      TargetsSpec(g.edges, i);
    }
  }

  // ---------------------------------------------------------------- tasks_per_operator

  /** The operator ids that occur in a node sequence. */
  function NodeIds(nodes: seq<LogicalNode>): set<string> {
    set i | 0 <= i < |nodes| :: nodes[i].operatorId
  }

  /** The map `tasks_per_operator` builds: one insertion per node, in node order. */
  function TasksPerOperatorOf(nodes: seq<LogicalNode>): map<string, nat>
    decreases |nodes|
  {
    if nodes == [] then map[]
    else
      var last := nodes[|nodes| - 1];
      TasksPerOperatorOf(nodes[..|nodes| - 1])[last.operatorId := last.parallelism]
  }

  /** The key set is exactly the set of node operator ids. */
  lemma {:induction false} TasksPerOperatorKeys(nodes: seq<LogicalNode>)
    ensures TasksPerOperatorOf(nodes).Keys == NodeIds(nodes)
    decreases |nodes|
  {
    if nodes != [] {
      var front := nodes[..|nodes| - 1];
      TasksPerOperatorKeys(front);
      assert NodeIds(nodes) == NodeIds(front) + {nodes[|nodes| - 1].operatorId} by {
        forall id | id in NodeIds(nodes) ensures id in NodeIds(front) + {nodes[|nodes| - 1].operatorId} {
          var i :| 0 <= i < |nodes| && nodes[i].operatorId == id;
          if i < |nodes| - 1 { assert front[i] == nodes[i]; }
        }
        forall id | id in NodeIds(front) ensures id in NodeIds(nodes) {
          var i :| 0 <= i < |front| && front[i].operatorId == id;
          assert nodes[i] == front[i];
        }
      }
    }
  }

  /** Each id maps to the parallelism of the last node carrying it. */
  lemma {:induction false} TasksPerOperatorLastWins(nodes: seq<LogicalNode>, i: nat)
    requires i < |nodes|
    requires forall j :: i < j < |nodes| ==> nodes[j].operatorId != nodes[i].operatorId
    ensures nodes[i].operatorId in TasksPerOperatorOf(nodes)
    ensures TasksPerOperatorOf(nodes)[nodes[i].operatorId] == nodes[i].parallelism
    decreases |nodes|
  {
    if i < |nodes| - 1 {
      var front := nodes[..|nodes| - 1];
      assert front[i] == nodes[i];
      TasksPerOperatorLastWins(front, i);
    }
  }

  /** `tasks_per_operator`: fills the map by insertion in a loop over the node weights. */
  method TasksPerOperator<S, T>(p: LogicalProgram<S, T>) returns (m: map<string, nat>)
    ensures m == TasksPerOperatorOf(p.graph.nodes)
  {
    var nodes := p.graph.nodes;
    m := map[];
    var i := 0;
    while i < |nodes|
      invariant i <= |nodes|
      invariant m == TasksPerOperatorOf(nodes[..i])
    {
      assert nodes[..i + 1][..i] == nodes[..i];
      m := m[nodes[i].operatorId := nodes[i].parallelism];
      i := i + 1;
    }
    assert nodes[..i] == nodes;
  }

  // ---------------------------------------------------------------- update_parallelism

  /** One node after the override map has been consulted for its operator id. */
  function ApplyOverride(n: LogicalNode, overrides: map<string, nat>): LogicalNode {
    if n.operatorId in overrides then n.(parallelism := overrides[n.operatorId]) else n
  }

  /** The node weights after `update_parallelism`: each node independently overridden. */
  function OverriddenNodes(nodes: seq<LogicalNode>, overrides: map<string, nat>): (r: seq<LogicalNode>)
    ensures |r| == |nodes|
    ensures forall i :: 0 <= i < |nodes| && nodes[i].operatorId in overrides ==>
              r[i].parallelism == overrides[nodes[i].operatorId]
    ensures forall i :: 0 <= i < |nodes| && nodes[i].operatorId !in overrides ==> r[i] == nodes[i]
    ensures forall i :: 0 <= i < |nodes| ==> r[i] == nodes[i].(parallelism := r[i].parallelism)
  {
    seq(|nodes|, i requires 0 <= i < |nodes| => ApplyOverride(nodes[i], overrides))
  }

  /** The program after `update_parallelism(overrides)`. */
  function WithParallelism<S, T>(p: LogicalProgram<S, T>, overrides: map<string, nat>): (q: LogicalProgram<S, T>)
    ensures q.graph.nodes == OverriddenNodes(p.graph.nodes, overrides)
    ensures q.graph.edges == p.graph.edges && q.programConfig == p.programConfig
  {
    p.(graph := p.graph.(nodes := OverriddenNodes(p.graph.nodes, overrides)))
  }

  /**
   * `update_parallelism`: walks petgraph's node-weight storage in place and
   * replaces the parallelism of every node whose id has an override.
   */
  method UpdateParallelism(weights: array<LogicalNode>, overrides: map<string, nat>)
    modifies weights
    ensures weights[..] == OverriddenNodes(old(weights[..]), overrides)
  {
    var i := 0;
    while i < weights.Length
      invariant i <= weights.Length
      invariant forall k :: 0 <= k < i ==> weights[k] == ApplyOverride(old(weights[k]), overrides)
      invariant forall k :: i <= k < weights.Length ==> weights[k] == old(weights[k])
    {
      var node := weights[i];
      if node.operatorId in overrides {
        weights[i] := node.(parallelism := overrides[node.operatorId]);
      }
      i := i + 1;
    }
  }

  /** Applying the same override map twice equals applying it once. */
  lemma UpdateParallelismIdempotent<S, T>(p: LogicalProgram<S, T>, overrides: map<string, nat>)
    ensures WithParallelism(WithParallelism(p, overrides), overrides) == WithParallelism(p, overrides)
  {
    var once := WithParallelism(p, overrides);
    var twice := WithParallelism(once, overrides);
    assert twice.graph.nodes == once.graph.nodes;
  }

  /** An empty override map changes nothing. */
  lemma UpdateParallelismEmpty<S, T>(p: LogicalProgram<S, T>)
    ensures WithParallelism(p, map[]) == p
  {
    assert WithParallelism(p, map[]).graph.nodes == p.graph.nodes;
  }

  /**
   * With unique operator ids, overriding with the program's own
   * `tasks_per_operator` map (the identity override) is a no-op.
   */
  lemma UpdateWithOwnTasksIsNoOp<S, T>(p: LogicalProgram<S, T>)
    requires forall i, j :: 0 <= i < j < |p.graph.nodes| ==>
               p.graph.nodes[i].operatorId != p.graph.nodes[j].operatorId
    ensures WithParallelism(p, TasksPerOperatorOf(p.graph.nodes)) == p
  {
    var nodes := p.graph.nodes;
    var q := WithParallelism(p, TasksPerOperatorOf(nodes));
    forall i | 0 <= i < |nodes| ensures q.graph.nodes[i] == nodes[i] {
      TasksPerOperatorLastWins(nodes, i);
    }
    assert q.graph.nodes == nodes;
  }

  /** A tasks map with every overridden key replaced by its override. */
  function RewriteTasks(m: map<string, nat>, overrides: map<string, nat>): map<string, nat> {
    map k | k in m :: if k in overrides then overrides[k] else m[k]
  }

  /** Rewriting commutes with one insertion, the insertion itself being rewritten. */
  lemma RewriteTasksInsert(m: map<string, nat>, overrides: map<string, nat>, id: string, v: nat)
    ensures RewriteTasks(m[id := v], overrides) ==
            RewriteTasks(m, overrides)[id := if id in overrides then overrides[id] else v]
  {
    var lhs := RewriteTasks(m[id := v], overrides);
    var rhs := RewriteTasks(m, overrides)[id := if id in overrides then overrides[id] else v];
    assert lhs.Keys == rhs.Keys;
    forall k | k in lhs ensures lhs[k] == rhs[k] {
    }
  }

  /** Overrides leave `tasks_per_operator`'s keys alone and replace the overridden values. */
  lemma {:induction false} TasksPerOperatorAfterUpdate(nodes: seq<LogicalNode>, overrides: map<string, nat>)
    ensures TasksPerOperatorOf(OverriddenNodes(nodes, overrides)) ==
            RewriteTasks(TasksPerOperatorOf(nodes), overrides)
    decreases |nodes|
  {
    if nodes == [] {
      assert OverriddenNodes(nodes, overrides) == [];
    } else {
      var front := nodes[..|nodes| - 1];
      var last := nodes[|nodes| - 1];
      var after := OverriddenNodes(nodes, overrides);
      assert after[..|after| - 1] == OverriddenNodes(front, overrides);
      TasksPerOperatorAfterUpdate(front, overrides);
      RewriteTasksInsert(TasksPerOperatorOf(front), overrides, last.operatorId, last.parallelism);
      assert after[|after| - 1] == ApplyOverride(last, overrides);
    }
  }

  /** Overrides never change the sources: edges are untouched. */
  lemma UpdateKeepsSources<S, T>(p: LogicalProgram<S, T>, overrides: map<string, nat>)
    ensures Sources(WithParallelism(p, overrides).graph) == Sources(p.graph)
  {
    var q := WithParallelism(p, overrides);
    assert forall i :: 0 <= i < |p.graph.nodes| ==>
      q.graph.nodes[i].operatorId == p.graph.nodes[i].operatorId;
  }

  /** Overrides keep the graph's endpoint invariant. */
  lemma UpdateKeepsValid<S, T>(p: LogicalProgram<S, T>, overrides: map<string, nat>)
    requires p.graph.Valid()
    ensures WithParallelism(p, overrides).graph.Valid()
  {
  }

  // ---------------------------------------------------------------- as_job_graph

  /** Every node's parallelism survives the `as u32` cast unchanged. */
  predicate ParallelismFitsU32(nodes: seq<LogicalNode>) {
    forall i :: 0 <= i < |nodes| ==> nodes[i].parallelism < 0x1_0000_0000
  }

  /** The job-graph record of one edge. */
  function JobEdgeOf<S>(g: LogicalGraph<S>, e: GraphEdge<S>): Api.JobEdge
    requires e.source < |g.nodes| && e.target < |g.nodes|
  {
    Api.JobEdge(g.nodes[e.source].operatorId, g.nodes[e.target].operatorId, "()", "()",
                EdgeTypeDebugName(e.weight.edgeType))
  }

  /**
   * `as_job_graph`: one summary node per node and one summary edge per edge,
   * both in graph order; schemas, projections and configs are dropped.
   */
  function AsJobGraph<S, T>(p: LogicalProgram<S, T>): (j: Api.JobGraph)
    requires p.graph.Valid() && ParallelismFitsU32(p.graph.nodes)
    ensures |j.nodes| == |p.graph.nodes|
    ensures forall i :: 0 <= i < |p.graph.nodes| ==>
              j.nodes[i] == Api.JobNode(p.graph.nodes[i].operatorId, p.graph.nodes[i].description,
                                        p.graph.nodes[i].parallelism)
    ensures |j.edges| == |p.graph.edges|
    ensures forall k :: 0 <= k < |p.graph.edges| ==>
              var e := p.graph.edges[k];
              j.edges[k].srcId == p.graph.nodes[e.source].operatorId &&
              j.edges[k].destId == p.graph.nodes[e.target].operatorId &&
              j.edges[k].keyType == "()" && j.edges[k].valueType == "()" &&
              j.edges[k].edgeType == EdgeTypeDebugName(e.weight.edgeType)
  {
    var g := p.graph;
    Api.JobGraph(
      seq(|g.nodes|, i requires 0 <= i < |g.nodes| =>
        Api.JobNode(g.nodes[i].operatorId, g.nodes[i].description, g.nodes[i].parallelism)),
      seq(|g.edges|, k requires 0 <= k < |g.edges| => JobEdgeOf(g, g.edges[k])))
  }

  /**
   * The job graph only sees ids, descriptions, parallelism, endpoints and
   * edge kinds: programs that agree on those have the same job graph.
   */
  lemma JobGraphIgnoresPayloads<S, T>(p: LogicalProgram<S, T>, q: LogicalProgram<S, T>)
    requires p.graph.Valid() && ParallelismFitsU32(p.graph.nodes)
    requires |q.graph.nodes| == |p.graph.nodes| && |q.graph.edges| == |p.graph.edges|
    requires forall i :: 0 <= i < |p.graph.nodes| ==>
               q.graph.nodes[i].operatorId == p.graph.nodes[i].operatorId &&
               q.graph.nodes[i].description == p.graph.nodes[i].description &&
               q.graph.nodes[i].parallelism == p.graph.nodes[i].parallelism
    requires forall k :: 0 <= k < |p.graph.edges| ==>
               q.graph.edges[k].source == p.graph.edges[k].source &&
               q.graph.edges[k].target == p.graph.edges[k].target &&
               q.graph.edges[k].weight.edgeType == p.graph.edges[k].weight.edgeType
    ensures q.graph.Valid() && ParallelismFitsU32(q.graph.nodes)
    ensures AsJobGraph(q) == AsJobGraph(p)
  {
    assert q.graph.Valid() by {
      forall k | 0 <= k < |q.graph.edges|
        ensures q.graph.edges[k].source < |q.graph.nodes| && q.graph.edges[k].target < |q.graph.nodes|
      {
        assert p.graph.edges[k].source < |p.graph.nodes|;
      }
    }
    var jp, jq := AsJobGraph(p), AsJobGraph(q);
    assert jq.nodes == jp.nodes;
    assert jq.edges == jp.edges;
  }

  // ---------------------------------------------------------------- scenario

  /** Three nodes src(2) -> agg(4) -> sink(1) over two forward edges. */
  function ScenarioProgram<S, T>(schema: ArroyoSchema<S>): LogicalProgram<S, T> {
    LogicalProgram(
      LogicalGraph(
        [LogicalNode("src", "source", ConnectorSource, [], 2),
         LogicalNode("agg", "aggregate", ArrowAggregate, [], 4),
         LogicalNode("sink", "sink", ConnectorSink, [], 1)],
        [GraphEdge(0, 1, ProjectAll(Forward, schema)),
         GraphEdge(1, 2, ProjectAll(Forward, schema))]),
      ProgramConfig(map[]))
  }

  /** Counts, sources and per-operator tasks of the scenario, before and after overriding agg to 8. */
  lemma ScenarioQueries<S, T>(schema: ArroyoSchema<S>)
    ensures TaskCount(ScenarioProgram<S, T>(schema)) == 7
    ensures Sources(ScenarioProgram<S, T>(schema).graph) == {"src"}
    ensures TasksPerOperatorOf(ScenarioProgram<S, T>(schema).graph.nodes) == map["src" := 2, "agg" := 4, "sink" := 1]
    ensures TaskCount(WithParallelism(ScenarioProgram<S, T>(schema), map["agg" := 8])) == 11
    ensures TasksPerOperatorOf(WithParallelism(ScenarioProgram<S, T>(schema), map["agg" := 8]).graph.nodes)
            == map["src" := 2, "agg" := 8, "sink" := 1]
  {
    var p := ScenarioProgram<S, T>(schema);
    var nodes := p.graph.nodes;
    var edges := p.graph.edges;
    assert nodes[1..] == [nodes[1], nodes[2]];
    assert nodes[1..][1..] == [nodes[2]];
    assert nodes[1..][1..][1..] == [];
    assert edges[1..] == [edges[1]];
    assert edges[1..][1..] == [];
    assert Targets(edges[1..][1..]) == {};
    assert Targets(edges[1..]) == {2};
    assert Targets(edges) == {1, 2};
    assert Sources(p.graph) == {"src"} by {
      assert nodes[0].operatorId == "src";
    }
    var n0, n01 := [nodes[0]], [nodes[0], nodes[1]];
    assert n0[..0] == [];
    assert n01[..1] == n0;
    assert nodes[..2] == n01;
    assert TasksPerOperatorOf(n0) == map["src" := 2];
    assert TasksPerOperatorOf(n01) == map["src" := 2, "agg" := 4];
    var q := WithParallelism(p, map["agg" := 8]);
    var qn := q.graph.nodes;
    assert qn == [nodes[0], nodes[1].(parallelism := 8), nodes[2]];
    assert qn[1..] == [qn[1], qn[2]];
    assert qn[1..][1..] == [qn[2]];
    assert qn[1..][1..][1..] == [];
    assert SumParallelism(qn[1..][1..]) == 1;
    assert SumParallelism(qn[1..]) == 9;
    var m0, m01 := [qn[0]], [qn[0], qn[1]];
    assert m0[..0] == [];
    assert m01[..1] == m0;
    assert qn[..2] == m01;
    assert TasksPerOperatorOf(m0) == map["src" := 2];
    assert TasksPerOperatorOf(m01) == map["src" := 2, "agg" := 8];
  }
}
