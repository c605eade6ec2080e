/**
 * The wire codec between `LogicalProgram` and `ArrowProgram`, and the
 * `DylibUdfConfig`/`ProgramConfig` conversions it uses. The Arrow schema
 * JSON (serde_json) and the `ArrowType` protobuf encoding are not owned by
 * this layer: they are passed in as `PayloadCodecs`, and the round-trip laws
 * require only that each decoder inverts its encoder.
 */
module Codec {
  import opened Wrappers
  import Api
  import opened Logical
  import Queries

  /** Encoders and decoders of the opaque payloads: S is the Arrow schema, T the Arrow type. */
  datatype PayloadCodecs<!S, !T> = PayloadCodecs(
    schemaToJson: S -> string,
    schemaFromJson: string -> Option<S>,
    typeToBytes: T -> seq<Api.byte>,
    typeFromBytes: seq<Api.byte> -> Option<T>)

  /** Each payload decoder recovers whatever its encoder produced. */
  ghost predicate Inverse<S(!new), T(!new)>(c: PayloadCodecs<S, T>) {
    && (forall s :: c.schemaFromJson(c.schemaToJson(s)) == Some(s))
    && (forall t :: c.typeFromBytes(c.typeToBytes(t)) == Some(t))
  }

  // ---------------------------------------------------------------- UDF configs

  /** `From<DylibUdfConfig> for ArrowDylibUdfConfig`: types become protobuf bytes. */
  function UdfToWire<S, T>(c: PayloadCodecs<S, T>, u: DylibUdfConfig<T>): (w: Api.ArrowDylibUdfConfig)
    ensures w.dylibPath == u.dylibPath && |w.argTypes| == |u.argTypes|
    ensures forall i :: 0 <= i < |u.argTypes| ==> w.argTypes[i] == c.typeToBytes(u.argTypes[i])
    ensures w.returnType == c.typeToBytes(u.returnType)
  {
    Api.ArrowDylibUdfConfig(
      u.dylibPath,
      seq(|u.argTypes|, i requires 0 <= i < |u.argTypes| => c.typeToBytes(u.argTypes[i])),
      c.typeToBytes(u.returnType))
  }

  /** Decodes a list of type blobs, or nothing if any blob fails to decode. */
  function DecodeTypes<S, T>(c: PayloadCodecs<S, T>, bs: seq<seq<Api.byte>>): (r: Option<seq<T>>)
    ensures r.Some? <==> forall i :: 0 <= i < |bs| ==> c.typeFromBytes(bs[i]).Some?
    ensures r.Some? ==> |r.value| == |bs|
    ensures r.Some? ==> forall i :: 0 <= i < |bs| ==> c.typeFromBytes(bs[i]) == Some(r.value[i])
  {
    if bs == [] then Some([])
    else
      match c.typeFromBytes(bs[0])
      case None => None
      case Some(t) =>
        match DecodeTypes(c, bs[1..])
        case None => None
        case Some(ts) =>
          assert forall i :: 1 <= i < |bs| ==> bs[i] == bs[1..][i - 1];
          Some([t] + ts)
  }

  /** `From<ArrowDylibUdfConfig> for DylibUdfConfig`: each `expect` becomes `InvalidUdfType`. */
  function UdfFromWire<S, T>(c: PayloadCodecs<S, T>, w: Api.ArrowDylibUdfConfig): (r: Result<DylibUdfConfig<T>, LogicalError>)
    ensures r.Success? <==>
              (forall i :: 0 <= i < |w.argTypes| ==> c.typeFromBytes(w.argTypes[i]).Some?) &&
              c.typeFromBytes(w.returnType).Some?
    ensures r.Failure? ==> r.error == InvalidUdfType
    ensures r.Success? ==>
              r.value.dylibPath == w.dylibPath && |r.value.argTypes| == |w.argTypes| &&
              (forall i :: 0 <= i < |w.argTypes| ==> c.typeFromBytes(w.argTypes[i]) == Some(r.value.argTypes[i])) &&
              c.typeFromBytes(w.returnType) == Some(r.value.returnType)
  {
    match DecodeTypes(c, w.argTypes)
    case None => Failure(InvalidUdfType)
    case Some(args) =>
      match c.typeFromBytes(w.returnType)
      case None => Failure(InvalidUdfType)
      case Some(ret) => Success(DylibUdfConfig(w.dylibPath, args, ret))
  }

  /** A UDF config survives encoding and decoding. */
  lemma UdfRoundTrip<S(!new), T(!new)>(c: PayloadCodecs<S, T>, u: DylibUdfConfig<T>)
    requires Inverse(c)
    ensures UdfFromWire(c, UdfToWire(c, u)) == Success(u)
  {
    var r := UdfFromWire(c, UdfToWire(c, u));
    assert r.value.argTypes == u.argTypes;
  }

  /** `From<ProgramConfig> for ArrowProgramConfig`: the same UDF names, each value encoded. */
  function ConfigToWire<S, T>(c: PayloadCodecs<S, T>, pc: ProgramConfig<T>): (w: Api.ArrowProgramConfig)
    ensures w.udfDylibs.Keys == pc.udfDylibs.Keys
    ensures forall k :: k in pc.udfDylibs ==> w.udfDylibs[k] == UdfToWire(c, pc.udfDylibs[k])
  {
    Api.ArrowProgramConfig(map k | k in pc.udfDylibs :: UdfToWire(c, pc.udfDylibs[k]))
  }

  /** `From<ArrowProgramConfig> for ProgramConfig`: fails if any UDF's types fail to decode. */
  function ConfigFromWire<S, T>(c: PayloadCodecs<S, T>, w: Api.ArrowProgramConfig): (r: Result<ProgramConfig<T>, LogicalError>)
    ensures r.Success? <==> forall k :: k in w.udfDylibs ==> UdfFromWire(c, w.udfDylibs[k]).Success?
    ensures r.Failure? ==> r.error == InvalidUdfType
    ensures r.Success? ==>
              r.value.udfDylibs.Keys == w.udfDylibs.Keys &&
              forall k :: k in w.udfDylibs ==> UdfFromWire(c, w.udfDylibs[k]) == Success(r.value.udfDylibs[k])
  {
    if forall k :: k in w.udfDylibs ==> UdfFromWire(c, w.udfDylibs[k]).Success? then
      Success(ProgramConfig(map k | k in w.udfDylibs :: UdfFromWire(c, w.udfDylibs[k]).value))
    else
      Failure(InvalidUdfType)
  }

  /** The UDF registry survives encoding and decoding. */
  lemma ConfigRoundTrip<S(!new), T(!new)>(c: PayloadCodecs<S, T>, pc: ProgramConfig<T>)
    requires Inverse(c)
    ensures ConfigFromWire(c, ConfigToWire(c, pc)) == Success(pc)
  {
    var w := ConfigToWire(c, pc);
    forall k | k in w.udfDylibs ensures UdfFromWire(c, w.udfDylibs[k]) == Success(pc.udfDylibs[k]) {
      UdfRoundTrip(c, pc.udfDylibs[k]);
    }
    var r := ConfigFromWire(c, w);
    assert r.value.udfDylibs == pc.udfDylibs;
  }

  // ---------------------------------------------------------------- encode

  const U32_LIMIT: nat := 0x1_0000_0000
  const NODE_INDEX_LIMIT: nat := 0x8000_0000

  /** The schema's positions survive the `as u32` casts. */
  predicate SchemaEncodable<S>(s: ArroyoSchema<S>) {
    s.timestampIndex < U32_LIMIT && forall i :: 0 <= i < |s.keyIndices| ==> s.keyIndices[i] < U32_LIMIT
  }

  /** The projection's positions survive the `as u32` casts. */
  predicate ProjectionEncodable(p: Option<seq<nat>>) {
    p.Some? ==> forall i :: 0 <= i < |p.value| ==> p.value[i] < U32_LIMIT
  }

  /**
   * A program whose every narrowing cast in the encoder is lossless: node
   * positions fit `i32`, parallelism and schema/projection positions fit `u32`.
   */
  predicate Encodable<S, T>(p: LogicalProgram<S, T>) {
    && p.graph.Valid()
    && |p.graph.nodes| <= NODE_INDEX_LIMIT
    && Queries.ParallelismFitsU32(p.graph.nodes)
    && forall k :: 0 <= k < |p.graph.edges| ==>
         SchemaEncodable(p.graph.edges[k].weight.schema) &&
         ProjectionEncodable(p.graph.edges[k].weight.projection)
  }

  function EncodeNode(i: nat, n: LogicalNode): Api.ArrowNode
    requires i < NODE_INDEX_LIMIT && n.parallelism < U32_LIMIT
  {
    Api.ArrowNode(i, n.operatorId, n.parallelism, n.description, OperatorNameText(n.operatorName), n.operatorConfig)
  }

  function EncodeSchema<S, T>(c: PayloadCodecs<S, T>, s: ArroyoSchema<S>): Api.ArroyoSchema
    requires SchemaEncodable(s)
  {
    Api.ArroyoSchema(c.schemaToJson(s.schema), s.timestampIndex, s.keyIndices)
  }

  /** `None` is sent as the empty list. */
  function EncodeProjection(p: Option<seq<nat>>): seq<Api.u32>
    requires ProjectionEncodable(p)
  {
    match p
    case None => []
    case Some(v) => v
  }

  function EncodeEdge<S, T>(c: PayloadCodecs<S, T>, e: GraphEdge<S>): Api.ArrowEdge
    requires e.source < NODE_INDEX_LIMIT && e.target < NODE_INDEX_LIMIT
    requires SchemaEncodable(e.weight.schema) && ProjectionEncodable(e.weight.projection)
  {
    Api.ArrowEdge(e.source, e.target, Some(EncodeSchema(c, e.weight.schema)),
                  EdgeTypeToWire(e.weight.edgeType), EncodeProjection(e.weight.projection))
  }

  /** `From<LogicalProgram> for ArrowProgram`. */
  function Encode<S, T>(c: PayloadCodecs<S, T>, p: LogicalProgram<S, T>): (w: Api.ArrowProgram)
    requires Encodable(p)
    ensures |w.nodes| == |p.graph.nodes|
    ensures forall i :: 0 <= i < |p.graph.nodes| ==>
              var n := p.graph.nodes[i];
              w.nodes[i].nodeIndex == i && w.nodes[i].nodeId == n.operatorId &&
              w.nodes[i].parallelism == n.parallelism && w.nodes[i].description == n.description &&
              w.nodes[i].operatorName == OperatorNameText(n.operatorName) &&
              w.nodes[i].operatorConfig == n.operatorConfig
    ensures |w.edges| == |p.graph.edges|
    ensures forall k :: 0 <= k < |p.graph.edges| ==>
              var e := p.graph.edges[k];
              w.edges[k].source == e.source && w.edges[k].target == e.target &&
              w.edges[k].edgeType == EdgeTypeToWire(e.weight.edgeType) &&
              w.edges[k].schema == Some(Api.ArroyoSchema(c.schemaToJson(e.weight.schema.schema),
                                                          e.weight.schema.timestampIndex,
                                                          e.weight.schema.keyIndices)) &&
              w.edges[k].projection == e.weight.projection.GetOr([])
    ensures w.programConfig == Some(ConfigToWire(c, p.programConfig))
  {
    var nodes := p.graph.nodes;
    var edges := p.graph.edges;
    Api.ArrowProgram(
      seq(|nodes|, i requires 0 <= i < |nodes| => EncodeNode(i, nodes[i])),
      seq(|edges|, k requires 0 <= k < |edges| => EncodeEdge(c, edges[k])),
      Some(ConfigToWire(c, p.programConfig)))
  }

  // ---------------------------------------------------------------- decode

  /** One wire node; only the operator name can fail. */
  function DecodeNode(n: Api.ArrowNode): Result<LogicalNode, LogicalError> {
    match ParseOperatorName(n.operatorName)
    case Failure(e) => Failure(e)
    case Success(op) => Success(LogicalNode(n.nodeId, n.description, op, n.operatorConfig, n.parallelism))
  }

  /** A wire node decodes exactly when its operator name parses, and keeps every field. */
  lemma DecodeNodeSpec(n: Api.ArrowNode)
    ensures DecodeNode(n).Success? <==> ParseOperatorName(n.operatorName).Success?
    ensures DecodeNode(n).Failure? ==> DecodeNode(n).error == UnknownOperator(n.operatorName)
    ensures DecodeNode(n).Success? ==>
              var d := DecodeNode(n).value;
              d.operatorId == n.nodeId && d.description == n.description &&
              OperatorNameText(d.operatorName) == n.operatorName &&
              d.operatorConfig == n.operatorConfig && d.parallelism == n.parallelism
  {
  }

  /** The node step of `try_from`; the position is not used. */
  function NodeStep(i: nat, n: Api.ArrowNode): Result<LogicalNode, LogicalError> {
    DecodeNode(n)
  }

  /** The node loop of `try_from`: nodes are decoded in order and the first failure stops it. */
  function DecodeNodes(ns: seq<Api.ArrowNode>): Result<seq<LogicalNode>, LogicalError> {
    TryMapFrom(NodeStep, ns, 0, [])
  }

  /**
   * The node loop succeeds iff every node decodes, giving node `i` at
   * position `i`; otherwise it fails with the first failing node's error.
   */
  lemma DecodeNodesSpec(ns: seq<Api.ArrowNode>)
    ensures DecodeNodes(ns).Success? <==> forall i :: 0 <= i < |ns| ==> DecodeNode(ns[i]).Success?
    ensures DecodeNodes(ns).Success? ==> |DecodeNodes(ns).value| == |ns|
    ensures DecodeNodes(ns).Success? ==>
              forall i :: 0 <= i < |ns| ==> DecodeNode(ns[i]) == Success(DecodeNodes(ns).value[i])
    ensures DecodeNodes(ns).Failure? ==>
              exists i :: 0 <= i < |ns| && DecodeNode(ns[i]) == Failure(DecodeNodes(ns).error) &&
                          forall j :: 0 <= j < i ==> DecodeNode(ns[j]).Success?
  {
    TryMapSpec(NodeStep, ns);
  }

  /** `id_map` after inserting the nodes in order: wire node index to graph position. */
  function IdMap(ns: seq<Api.ArrowNode>): map<Api.i32, nat>
    decreases |ns|
  {
    if ns == [] then map[]
    else IdMap(ns[..|ns| - 1])[ns[|ns| - 1].nodeIndex := |ns| - 1]
  }

  /**
   * Every wire index is a key of `id_map`, each key maps to a node carrying
   * it, and a repeated index keeps the position of its LAST occurrence.
   */
  lemma {:induction false} IdMapSpec(ns: seq<Api.ArrowNode>)
    ensures forall i :: 0 <= i < |ns| ==> ns[i].nodeIndex in IdMap(ns)
    ensures forall k :: k in IdMap(ns) ==>
              IdMap(ns)[k] < |ns| && ns[IdMap(ns)[k]].nodeIndex == k &&
              forall j :: IdMap(ns)[k] < j < |ns| ==> ns[j].nodeIndex != k
    decreases |ns|
  {
    if ns != [] {
      var front := ns[..|ns| - 1];
      IdMapSpec(front);
      assert forall i :: 0 <= i < |front| ==> front[i] == ns[i];
    }
  }

  /** What a wire edge needs for `try_from` to accept it. */
  predicate EdgeDecodes<S, T>(c: PayloadCodecs<S, T>, idMap: map<Api.i32, nat>, e: Api.ArrowEdge) {
    && e.source in idMap
    && e.target in idMap
    && e.schema.Some?
    && e.edgeType != Api.Unused
    && c.schemaFromJson(e.schema.value.arrowSchema).Some?
  }

  /**
   * One wire edge at position `pos`, in the order the source evaluates:
   * source lookup, target lookup, schema presence, edge type, schema JSON.
   */
  function DecodeEdge<S, T>(c: PayloadCodecs<S, T>, idMap: map<Api.i32, nat>, pos: nat, e: Api.ArrowEdge)
    : Result<GraphEdge<S>, LogicalError>
  {
    if e.source !in idMap then Failure(DanglingEdgeReference(e.source))
    else if e.target !in idMap then Failure(DanglingEdgeReference(e.target))
    else if e.schema.None? then Failure(MissingSchema(pos))
    else
      match EdgeTypeFromWire(e.edgeType)
      case Failure(err) => Failure(err)
      case Success(t) =>
        match c.schemaFromJson(e.schema.value.arrowSchema)
        case None => Failure(InvalidSchema(pos))
        case Some(s) =>
          var schema := ArroyoSchema(s, e.schema.value.timestampIndex, e.schema.value.keyIndices);
          var projection := if e.projection == [] then None else Some(e.projection);
          Success(GraphEdge(idMap[e.source], idMap[e.target], LogicalEdge(t, schema, projection)))
  }

  /**
   * A wire edge decodes exactly when `EdgeDecodes` holds; each failure names
   * its cause; a decoded edge has the looked-up endpoints, the same type,
   * schema positions and payload, and `None` for an empty projection.
   */
  lemma DecodeEdgeSpec<S, T>(c: PayloadCodecs<S, T>, idMap: map<Api.i32, nat>, pos: nat, e: Api.ArrowEdge)
    ensures DecodeEdge(c, idMap, pos, e).Success? <==> EdgeDecodes(c, idMap, e)
    ensures e.source !in idMap ==> DecodeEdge(c, idMap, pos, e) == Failure(DanglingEdgeReference(e.source))
    ensures e.source in idMap && e.target !in idMap ==>
              DecodeEdge(c, idMap, pos, e) == Failure(DanglingEdgeReference(e.target))
    ensures e.source in idMap && e.target in idMap && e.schema.None? ==>
              DecodeEdge(c, idMap, pos, e) == Failure(MissingSchema(pos))
    ensures e.source in idMap && e.target in idMap && e.schema.Some? && e.edgeType == Api.Unused ==>
              DecodeEdge(c, idMap, pos, e) == Failure(SentinelEdgeType)
    ensures e.source in idMap && e.target in idMap && e.schema.Some? && e.edgeType != Api.Unused &&
            c.schemaFromJson(e.schema.value.arrowSchema).None? ==>
              DecodeEdge(c, idMap, pos, e) == Failure(InvalidSchema(pos))
    ensures DecodeEdge(c, idMap, pos, e).Success? ==>
              var d := DecodeEdge(c, idMap, pos, e).value;
              d.source == idMap[e.source] && d.target == idMap[e.target] &&
              EdgeTypeToWire(d.weight.edgeType) == e.edgeType &&
              c.schemaFromJson(e.schema.value.arrowSchema) == Some(d.weight.schema.schema) &&
              d.weight.schema.timestampIndex == e.schema.value.timestampIndex &&
              d.weight.schema.keyIndices == e.schema.value.keyIndices &&
              d.weight.projection == (if e.projection == [] then None else Some(e.projection))
  {
  }

  /** The edge step of `try_from`, resolving endpoints through `idMap`. */
  function EdgeStep<S, T>(c: PayloadCodecs<S, T>, idMap: map<Api.i32, nat>): (nat, Api.ArrowEdge) -> Result<GraphEdge<S>, LogicalError> {
    (k: nat, e: Api.ArrowEdge) => DecodeEdge(c, idMap, k, e)
  }

  /** The edge loop of `try_from`: edges are decoded in order and the first failure stops it. */
  function DecodeEdges<S, T>(c: PayloadCodecs<S, T>, idMap: map<Api.i32, nat>, es: seq<Api.ArrowEdge>)
    : Result<seq<GraphEdge<S>>, LogicalError>
  {
    TryMapFrom(EdgeStep(c, idMap), es, 0, [])
  }

  /**
   * The edge loop succeeds iff every edge decodes, giving edge `k` at
   * position `k`; otherwise it fails with the first failing edge's error.
   */
  lemma DecodeEdgesSpec<S, T>(c: PayloadCodecs<S, T>, idMap: map<Api.i32, nat>, es: seq<Api.ArrowEdge>)
    ensures DecodeEdges(c, idMap, es).Success? <==> forall k :: 0 <= k < |es| ==> EdgeDecodes(c, idMap, es[k])
    ensures DecodeEdges(c, idMap, es).Success? ==> |DecodeEdges(c, idMap, es).value| == |es|
    ensures DecodeEdges(c, idMap, es).Success? ==>
              forall k :: 0 <= k < |es| ==> DecodeEdge(c, idMap, k, es[k]) == Success(DecodeEdges(c, idMap, es).value[k])
    ensures DecodeEdges(c, idMap, es).Failure? ==>
              exists k :: 0 <= k < |es| && DecodeEdge(c, idMap, k, es[k]) == Failure(DecodeEdges(c, idMap, es).error) &&
                          forall j :: 0 <= j < k ==> EdgeDecodes(c, idMap, es[j])
  {
    TryMapSpec(EdgeStep(c, idMap), es);
    forall k | 0 <= k < |es| ensures DecodeEdge(c, idMap, k, es[k]).Success? <==> EdgeDecodes(c, idMap, es[k]) {
      DecodeEdgeSpec(c, idMap, k, es[k]);
    }
  }

  /** The registry used when the wire program carries none. */
  const EMPTY_CONFIG: Api.ArrowProgramConfig := Api.ArrowProgramConfig(map[])

  /**
   * `TryFrom<ArrowProgram> for LogicalProgram`: nodes, then edges through
   * `id_map`, then the config; a decoded program has one node per wire node
   * and one edge per wire edge.
   */
  function Decode<S, T>(c: PayloadCodecs<S, T>, w: Api.ArrowProgram): (r: Result<LogicalProgram<S, T>, LogicalError>)
    ensures r.Success? ==> |r.value.graph.nodes| == |w.nodes| && |r.value.graph.edges| == |w.edges|
  {
    DecodeNodesSpec(w.nodes);
    DecodeEdgesSpec(c, IdMap(w.nodes), w.edges);
    match DecodeNodes(w.nodes)
    case Failure(e) => Failure(e)
    case Success(nodes) =>
      match DecodeEdges(c, IdMap(w.nodes), w.edges)
      case Failure(e) => Failure(e)
      case Success(edges) =>
        match ConfigFromWire(c, w.programConfig.GetOr(EMPTY_CONFIG))
        case Failure(e) => Failure(e)
        case Success(pc) => Success(LogicalProgram(LogicalGraph(nodes, edges), pc))
  }

  /**
   * A successful decode is a well-formed graph with one node per wire node
   * and one edge per wire edge, each decoded from its wire counterpart, and
   * the decoded UDF registry.
   */
  lemma DecodeShape<S, T>(c: PayloadCodecs<S, T>, w: Api.ArrowProgram)
    ensures var r := Decode(c, w);
            r.Success? ==>
              && r.value.graph.Valid()
              && |r.value.graph.nodes| == |w.nodes| && |r.value.graph.edges| == |w.edges|
              && (forall i :: 0 <= i < |w.nodes| ==> DecodeNode(w.nodes[i]) == Success(r.value.graph.nodes[i]))
              && (forall k :: 0 <= k < |w.edges| ==>
                    DecodeEdge(c, IdMap(w.nodes), k, w.edges[k]) == Success(r.value.graph.edges[k]))
              && ConfigFromWire(c, w.programConfig.GetOr(EMPTY_CONFIG)) == Success(r.value.programConfig)
  {
    var r := Decode(c, w);
    if r.Success? {
      var idMap := IdMap(w.nodes);
      DecodeNodesSpec(w.nodes);
      DecodeEdgesSpec(c, idMap, w.edges);
      IdMapSpec(w.nodes);
      var g := r.value.graph;
      forall k | 0 <= k < |g.edges| ensures g.edges[k].source < |g.nodes| && g.edges[k].target < |g.nodes| {
        DecodeEdgeSpec(c, idMap, k, w.edges[k]);
      }
    }
  }

  /**
   * `try_from` as the source runs it: add the nodes one by one while filling
   * `id_map`, then add the edges one by one through `id_map`, then convert
   * the program config (an empty one when absent).
   */
  method TryFromArrowProgram<S, T>(c: PayloadCodecs<S, T>, w: Api.ArrowProgram) returns (r: Result<LogicalProgram<S, T>, LogicalError>)
    ensures r == Decode(c, w)
  {
    var nodes: seq<LogicalNode> := [];
    var idMap: map<Api.i32, nat> := map[];
    var i := 0;
    while i < |w.nodes|
      invariant i <= |w.nodes| && |nodes| == i
      invariant TryMapFrom(NodeStep, w.nodes, i, nodes) == DecodeNodes(w.nodes)
      invariant idMap == IdMap(w.nodes[..i])
    {
      assert w.nodes[..i + 1][..i] == w.nodes[..i];
      var node := DecodeNode(w.nodes[i]);
      if node.Failure? {
        return Failure(node.error);
      }
      idMap := idMap[w.nodes[i].nodeIndex := |nodes|];
      nodes := nodes + [node.value];
      i := i + 1;
    }
    assert w.nodes[..i] == w.nodes;

    var edges: seq<GraphEdge<S>> := [];
    var k := 0;
    while k < |w.edges|
      invariant k <= |w.edges|
      invariant TryMapFrom(EdgeStep(c, idMap), w.edges, k, edges) == DecodeEdges(c, idMap, w.edges)
    {
      var edge := DecodeEdge(c, idMap, k, w.edges[k]);
      if edge.Failure? {
        return Failure(edge.error);
      }
      edges := edges + [edge.value];
      k := k + 1;
    }

    var config := ConfigFromWire(c, w.programConfig.GetOr(EMPTY_CONFIG));
    if config.Failure? {
      return Failure(config.error);
    }
    r := Success(LogicalProgram(LogicalGraph(nodes, edges), config.value));
  }

  // ---------------------------------------------------------------- laws

  /** An edge as the wire sees it: a declared empty projection reads as no projection. */
  function NormalizeEdge<S>(e: GraphEdge<S>): GraphEdge<S> {
    if e.weight.projection == Some([]) then e.(weight := e.weight.(projection := None)) else e
  }

  /** The program with every `Some([])` projection replaced by `None`; nothing else changes. */
  function Normalized<S, T>(p: LogicalProgram<S, T>): (q: LogicalProgram<S, T>)
    ensures q.graph.nodes == p.graph.nodes && q.programConfig == p.programConfig
    ensures |q.graph.edges| == |p.graph.edges|
    ensures forall k :: 0 <= k < |p.graph.edges| ==>
              var e, f := p.graph.edges[k], q.graph.edges[k];
              f.source == e.source && f.target == e.target &&
              f.weight.edgeType == e.weight.edgeType && f.weight.schema == e.weight.schema &&
              (e.weight.projection == Some([]) ==> f.weight.projection == None) &&
              (e.weight.projection != Some([]) ==> f.weight.projection == e.weight.projection)
  {
    var edges := p.graph.edges;
    p.(graph := p.graph.(edges := seq(|edges|, k requires 0 <= k < |edges| => NormalizeEdge(edges[k]))))
  }

  /** The wire cannot tell a declared empty projection from no projection. */
  lemma EncodeIgnoresEmptyProjection<S, T>(c: PayloadCodecs<S, T>, p: LogicalProgram<S, T>)
    requires Encodable(p)
    ensures Encodable(Normalized(p))
    ensures Encode(c, Normalized(p)) == Encode(c, p)
  {
    var q := Normalized(p);
    assert Encodable(q) by {
      forall k | 0 <= k < |q.graph.edges|
        ensures q.graph.edges[k].source < |q.graph.nodes| && q.graph.edges[k].target < |q.graph.nodes|
        ensures ProjectionEncodable(q.graph.edges[k].weight.projection)
      {
        assert p.graph.edges[k].source < |p.graph.nodes| && p.graph.edges[k].target < |p.graph.nodes|;
        assert ProjectionEncodable(p.graph.edges[k].weight.projection);
      }
    }
    var wp, wq := Encode(c, p), Encode(c, q);
    assert wq.nodes == wp.nodes;
    assert wq.edges == wp.edges;
  }

  /** Decoding an encoding gives each node position back as its own graph position. */
  lemma IdMapOfEncoding<S, T>(c: PayloadCodecs<S, T>, p: LogicalProgram<S, T>)
    requires Encodable(p)
    ensures forall i: Api.i32 :: 0 <= i < |p.graph.nodes| ==>
              i in IdMap(Encode(c, p).nodes) && IdMap(Encode(c, p).nodes)[i] == i
  {
    var ns := Encode(c, p).nodes;
    var m := IdMap(ns);
    IdMapSpec(ns);
    forall i: Api.i32 | 0 <= i < |p.graph.nodes| ensures i in m && m[i] == i {
      assert ns[i].nodeIndex == i;
      assert ns[m[i]].nodeIndex == i;
    }
  }

  /**
   * The codec round trip: decoding the encoding succeeds and gives back the
   * same nodes, edges (endpoints, type, schema) and UDF registry; the only
   * change is that `Some([])` projections come back as `None`.
   */
  lemma RoundTrip<S(!new), T(!new)>(c: PayloadCodecs<S, T>, p: LogicalProgram<S, T>)
    requires Inverse(c) && Encodable(p)
    ensures Decode(c, Encode(c, p)) == Success(Normalized(p))
  {
    var w := Encode(c, p);
    var q := Normalized(p);
    var nodes, edges := p.graph.nodes, p.graph.edges;

    forall i | 0 <= i < |nodes| ensures DecodeNode(w.nodes[i]) == Success(nodes[i]) {
      OperatorNameRoundTrip(nodes[i].operatorName);
    }
    DecodeNodesSpec(w.nodes);
    var dn := DecodeNodes(w.nodes);
    assert dn.value == nodes;

    var idMap := IdMap(w.nodes);
    IdMapOfEncoding(c, p);
    forall k | 0 <= k < |edges| ensures DecodeEdge(c, idMap, k, w.edges[k]) == Success(q.graph.edges[k]) {
      var e := edges[k];
      assert e.source < |nodes| && e.target < |nodes|;
      EdgeTypeRoundTrip(e.weight.edgeType);
      DecodeEdgeSpec(c, idMap, k, w.edges[k]);
    }
    DecodeEdgesSpec(c, idMap, w.edges);
    var de := DecodeEdges(c, idMap, w.edges);
    assert de.value == q.graph.edges;

    ConfigRoundTrip(c, p.programConfig);
  }

  /** Without declared-empty projections the round trip is exact. */
  lemma RoundTripExact<S(!new), T(!new)>(c: PayloadCodecs<S, T>, p: LogicalProgram<S, T>)
    requires Inverse(c) && Encodable(p)
    requires forall k :: 0 <= k < |p.graph.edges| ==> p.graph.edges[k].weight.projection != Some([])
    ensures Decode(c, Encode(c, p)) == Success(p)
  {
    RoundTrip(c, p);
    assert Normalized(p).graph.edges == p.graph.edges;
  }

  /** Decoding succeeds exactly when every node, every edge and the UDF registry decode. */
  lemma DecodeSucceedsIff<S, T>(c: PayloadCodecs<S, T>, w: Api.ArrowProgram)
    ensures Decode(c, w).Success? <==>
              && (forall i :: 0 <= i < |w.nodes| ==> ParseOperatorName(w.nodes[i].operatorName).Success?)
              && (forall k :: 0 <= k < |w.edges| ==> EdgeDecodes(c, IdMap(w.nodes), w.edges[k]))
              && ConfigFromWire(c, w.programConfig.GetOr(EMPTY_CONFIG)).Success?
  {
    DecodeNodesSpec(w.nodes);
    DecodeEdgesSpec(c, IdMap(w.nodes), w.edges);
    forall i | 0 <= i < |w.nodes|
      ensures DecodeNode(w.nodes[i]).Success? <==> ParseOperatorName(w.nodes[i].operatorName).Success?
    {
      DecodeNodeSpec(w.nodes[i]);
    }
  }

  /**
   * The failure paths: an unparsable operator name, an edge endpoint that
   * no wire node carries as its index, an edge without a schema, or the
   * `Unused` edge type each make the whole decode fail.
   */
  lemma DecodeRejects<S, T>(c: PayloadCodecs<S, T>, w: Api.ArrowProgram)
    ensures (exists i :: 0 <= i < |w.nodes| && ParseOperatorName(w.nodes[i].operatorName).Failure?)
            ==> Decode(c, w).Failure?
    ensures (exists k :: 0 <= k < |w.edges| &&
               ((forall i :: 0 <= i < |w.nodes| ==> w.nodes[i].nodeIndex != w.edges[k].source) ||
                (forall i :: 0 <= i < |w.nodes| ==> w.nodes[i].nodeIndex != w.edges[k].target)))
            ==> Decode(c, w).Failure?
    ensures (exists k :: 0 <= k < |w.edges| && w.edges[k].schema.None?) ==> Decode(c, w).Failure?
    ensures (exists k :: 0 <= k < |w.edges| && w.edges[k].edgeType == Api.Unused) ==> Decode(c, w).Failure?
  {
    DecodeSucceedsIff(c, w);
    var m := IdMap(w.nodes);
    IdMapSpec(w.nodes);
    if k :| 0 <= k < |w.edges| &&
            ((forall i :: 0 <= i < |w.nodes| ==> w.nodes[i].nodeIndex != w.edges[k].source) ||
             (forall i :: 0 <= i < |w.nodes| ==> w.nodes[i].nodeIndex != w.edges[k].target)) {
      if w.edges[k].source in m {
        assert w.nodes[m[w.edges[k].source]].nodeIndex == w.edges[k].source;
      }
      if w.edges[k].target in m {
        assert w.nodes[m[w.edges[k].target]].nodeIndex == w.edges[k].target;
      }
      assert !EdgeDecodes(c, m, w.edges[k]);
    }
  }

  /** A wire program without a program config decodes to an empty UDF registry. */
  lemma DecodeMissingConfig<S, T>(c: PayloadCodecs<S, T>, w: Api.ArrowProgram)
    requires w.programConfig.None?
    ensures Decode(c, w).Success? ==> Decode(c, w).value.programConfig.udfDylibs == map[]
    ensures ConfigFromWire(c, w.programConfig.GetOr(EMPTY_CONFIG)) == Success(ProgramConfig(map[]))
  {
  }

  /** A decoded encoding runs as many tasks, per operator and in total, as the original. */
  lemma RoundTripPreservesTasks<S(!new), T(!new)>(c: PayloadCodecs<S, T>, p: LogicalProgram<S, T>)
    requires Inverse(c) && Encodable(p)
    ensures Decode(c, Encode(c, p)).Success?
    ensures Queries.TaskCount(Decode(c, Encode(c, p)).value) == Queries.TaskCount(p)
    ensures Queries.TasksPerOperatorOf(Decode(c, Encode(c, p)).value.graph.nodes)
            == Queries.TasksPerOperatorOf(p.graph.nodes)
  {
    RoundTrip(c, p);
  }

  /** Normalising projections keeps the sources: edge targets are unchanged. */
  lemma NormalizedKeepsSources<S, T>(p: LogicalProgram<S, T>)
    ensures Queries.Sources(Normalized(p).graph) == Queries.Sources(p.graph)
  {
    var q := Normalized(p);
    forall id ensures id in Queries.Sources(q.graph) <==> id in Queries.Sources(p.graph) {
      Queries.SourcesSpec(q.graph, id);
      Queries.SourcesSpec(p.graph, id);
      forall i | 0 <= i < |p.graph.nodes|
        ensures Queries.HasIncoming(q.graph, i) <==> Queries.HasIncoming(p.graph, i)
      {
        if Queries.HasIncoming(q.graph, i) {
          var k :| 0 <= k < |q.graph.edges| && q.graph.edges[k].target == i;
          assert p.graph.edges[k].target == i;
        }
        if Queries.HasIncoming(p.graph, i) {
          var k :| 0 <= k < |p.graph.edges| && p.graph.edges[k].target == i;
          assert q.graph.edges[k].target == i;
        }
      }
    }
  }

  /** The sources and the job-graph view of a decoded encoding are those of the original. */
  lemma RoundTripPreservesViews<S(!new), T(!new)>(c: PayloadCodecs<S, T>, p: LogicalProgram<S, T>)
    requires Inverse(c) && Encodable(p)
    ensures Decode(c, Encode(c, p)).Success?
    ensures Queries.Sources(Decode(c, Encode(c, p)).value.graph) == Queries.Sources(p.graph)
    ensures Decode(c, Encode(c, p)).value.graph.Valid()
    ensures Queries.ParallelismFitsU32(Decode(c, Encode(c, p)).value.graph.nodes)
    ensures Queries.AsJobGraph(Decode(c, Encode(c, p)).value) == Queries.AsJobGraph(p)
  {
    RoundTrip(c, p);
    NormalizedKeepsSources(p);
    Queries.JobGraphIgnoresPayloads(p, Normalized(p));
  }
}
