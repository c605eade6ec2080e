/**
 * The logical dataflow-graph IR: the operator and edge taxonomies with their
 * text and wire conversions, and the node, edge, graph, UDF-registry and
 * program data model. A petgraph `DiGraph` is a dense sequence of node
 * weights (indices 0..n-1 in insertion order) plus a sequence of edges whose
 * endpoints are node positions.
 */
module Logical {
  import opened Wrappers
  import Api

  /** Why a conversion from the wire form failed. */
  datatype LogicalError =
    | UnknownOperator(name: string)          // operator name text outside the taxonomy
    | DanglingEdgeReference(index: Api.i32)  // edge endpoint absent from the node index table
    | MissingSchema(edge: nat)               // edge at this position carries no schema
    | SentinelEdgeType                       // wire edge type is `Unused`
    | InvalidSchema(edge: nat)               // schema JSON of the edge at this position does not parse
    | InvalidUdfType                         // a UDF argument or return type blob does not decode

  // ---------------------------------------------------------------- operators

  datatype OperatorName =
    | ExpressionWatermark
    | ArrowValue
    | ArrowKey
    | ArrowAggregate
    | Join
    | InstantJoin
    | TumblingWindowAggregate
    | SlidingWindowAggregate
    | SessionWindowAggregate
    | ConnectorSource
    | ConnectorSink

  /** The strum `Display` text of an operator: its variant name, so non-empty and capitalised. */
  function OperatorNameText(op: OperatorName): (r: string)
    ensures |r| > 0 && 'A' <= r[0] <= 'Z'
  {
    match op
    case ExpressionWatermark => "ExpressionWatermark"
    case ArrowValue => "ArrowValue"
    case ArrowKey => "ArrowKey"
    case ArrowAggregate => "ArrowAggregate"
    case Join => "Join"
    case InstantJoin => "InstantJoin"
    case TumblingWindowAggregate => "TumblingWindowAggregate"
    case SlidingWindowAggregate => "SlidingWindowAggregate"
    case SessionWindowAggregate => "SessionWindowAggregate"
    case ConnectorSource => "ConnectorSource"
    case ConnectorSink => "ConnectorSink"
  }

  /** Every operator, in declaration order. */
  const OPERATOR_NAMES: seq<OperatorName> := [
    ExpressionWatermark, ArrowValue, ArrowKey, ArrowAggregate, Join, InstantJoin,
    TumblingWindowAggregate, SlidingWindowAggregate, SessionWindowAggregate,
    ConnectorSource, ConnectorSink]

  /** The operator list is complete. */
  lemma OperatorNamesComplete(op: OperatorName)
    ensures op in OPERATOR_NAMES
  {
  }

  /** The first operator from position `from` on whose text is `s`, if any. */
  function FindOperator(s: string, from: nat): (r: Option<OperatorName>)
    requires from <= |OPERATOR_NAMES|
    ensures r.Some? ==> OperatorNameText(r.value) == s
    ensures r.None? ==> forall k :: from <= k < |OPERATOR_NAMES| ==> OperatorNameText(OPERATOR_NAMES[k]) != s
    decreases |OPERATOR_NAMES| - from
  {
    if from == |OPERATOR_NAMES| then None
    else if OperatorNameText(OPERATOR_NAMES[from]) == s then Some(OPERATOR_NAMES[from])
    else FindOperator(s, from + 1)
  }

  /** The strum `EnumString` parser: exact, case-sensitive match on the variant names. */
  function ParseOperatorName(s: string): (r: Result<OperatorName, LogicalError>)
    ensures r.Success? ==> OperatorNameText(r.value) == s
    ensures r.Failure? ==> r.error == UnknownOperator(s)
  {
    match FindOperator(s, 0)
    case Some(op) => Success(op)
    case None => Failure(UnknownOperator(s))
  }

  /** Parsing fails exactly on the texts that are no operator's display text. */
  lemma ParseOperatorNameFailsIff(s: string)
    ensures ParseOperatorName(s).Failure? <==> forall op :: OperatorNameText(op) != s
  {
    if ParseOperatorName(s).Failure? {
      forall op ensures OperatorNameText(op) != s {
        OperatorNamesComplete(op);
      }
    }
  }

  /** Distinct operators have distinct texts. */
  lemma OperatorNameTextInjective(a: OperatorName, b: OperatorName)
    ensures OperatorNameText(a) == OperatorNameText(b) ==> a == b
  {
  }

  /** Every operator's display text parses back to that operator. */
  lemma OperatorNameRoundTrip(op: OperatorName)
    ensures ParseOperatorName(OperatorNameText(op)) == Success(op)
  {
    ParseOperatorNameFailsIff(OperatorNameText(op));
    var r := ParseOperatorName(OperatorNameText(op));
    OperatorNameTextInjective(r.value, op);
  }

  // ---------------------------------------------------------------- edge types

  /** Declaration order is the derived `Ord`: Forward < Shuffle < LeftJoin < RightJoin. */
  datatype LogicalEdgeType = Forward | Shuffle | LeftJoin | RightJoin

  /** The position of an edge type in the derived ordering. */
  function EdgeTypeOrdinal(t: LogicalEdgeType): (r: nat)
    ensures r < 4
  {
    match t
    case Forward => 0
    case Shuffle => 1
    case LeftJoin => 2
    case RightJoin => 3
  }

  /** The derived strict ordering on edge types. */
  predicate EdgeTypeLess(a: LogicalEdgeType, b: LogicalEdgeType) {
    EdgeTypeOrdinal(a) < EdgeTypeOrdinal(b)
  }

  /** The derived ordering is the declaration order, and a strict total order. */
  lemma EdgeTypeOrderTotal(a: LogicalEdgeType, b: LogicalEdgeType, c: LogicalEdgeType)
    ensures EdgeTypeLess(Forward, Shuffle) && EdgeTypeLess(Shuffle, LeftJoin) && EdgeTypeLess(LeftJoin, RightJoin)
    ensures !EdgeTypeLess(a, a)
    ensures EdgeTypeLess(a, b) && EdgeTypeLess(b, c) ==> EdgeTypeLess(a, c)
    ensures a == b || EdgeTypeLess(a, b) || EdgeTypeLess(b, a)
  {
  }

  /** `From<LogicalEdgeType> for api::EdgeType`: total, and never the sentinel. */
  function EdgeTypeToWire(t: LogicalEdgeType): (w: Api.EdgeType)
    ensures w != Api.Unused
  {
    match t
    case Forward => Api.Forward
    case Shuffle => Api.Shuffle
    case LeftJoin => Api.LeftJoin
    case RightJoin => Api.RightJoin
  }

  /** `From<EdgeType> for LogicalEdgeType`: the `Unused` panic becomes an error. */
  function EdgeTypeFromWire(w: Api.EdgeType): (r: Result<LogicalEdgeType, LogicalError>)
    ensures r.Failure? <==> w == Api.Unused
    ensures r.Failure? ==> r.error == SentinelEdgeType
    ensures r.Success? ==> EdgeTypeToWire(r.value) == w
  {
    match w
    case Unused => Failure(SentinelEdgeType)
    case Forward => Success(Forward)
    case Shuffle => Success(Shuffle)
    case LeftJoin => Success(LeftJoin)
    case RightJoin => Success(RightJoin)
  }

  /** Converting to the wire enum and back returns the original edge type. */
  lemma EdgeTypeRoundTrip(t: LogicalEdgeType)
    ensures EdgeTypeFromWire(EdgeTypeToWire(t)) == Success(t)
  {
  }

  /** The derived `Debug` text of an edge type: its variant name, so non-empty and capitalised. */
  function EdgeTypeDebugName(t: LogicalEdgeType): (r: string)
    ensures |r| > 0 && 'A' <= r[0] <= 'Z'
  {
    match t
    case Forward => "Forward"
    case Shuffle => "Shuffle"
    case LeftJoin => "LeftJoin"
    case RightJoin => "RightJoin"
  }

  /** Distinct edge types have distinct Debug texts, so the job-graph view keeps the edge kind. */
  lemma EdgeTypeDebugNameInjective(a: LogicalEdgeType, b: LogicalEdgeType)
    ensures EdgeTypeDebugName(a) == EdgeTypeDebugName(b) ==> a == b
  {
  }

  // ---------------------------------------------------------------- data model

  /**
   * `ArroyoSchema`: the Arrow field list `schema` (an opaque payload of
   * type S), the timestamp field position and the key field positions.
   */
  datatype ArroyoSchema<S> = ArroyoSchema(schema: S, timestampIndex: nat, keyIndices: seq<nat>)

  /** Edge payload: its kind, the schema of its records and an optional column projection. */
  datatype LogicalEdge<S> = LogicalEdge(
    edgeType: LogicalEdgeType,
    schema: ArroyoSchema<S>,
    projection: Option<seq<nat>>)

  /** `LogicalEdge::project_all`: an edge that forwards every field. */
  function ProjectAll<S>(edgeType: LogicalEdgeType, schema: ArroyoSchema<S>): LogicalEdge<S> {
    LogicalEdge(edgeType, schema, None)
  }

  datatype LogicalNode = LogicalNode(
    operatorId: string,
    description: string,
    operatorName: OperatorName,
    operatorConfig: seq<Api.byte>,
    parallelism: nat)

  /** An arc of the graph: source and target node positions and the edge weight. */
  datatype GraphEdge<S> = GraphEdge(source: nat, target: nat, weight: LogicalEdge<S>)

  /** `LogicalGraph = DiGraph<LogicalNode, LogicalEdge>` as node and edge sequences. */
  datatype LogicalGraph<S> = LogicalGraph(nodes: seq<LogicalNode>, edges: seq<GraphEdge<S>>) {
    /** Every edge endpoint names a node: petgraph's own structural invariant. */
    predicate Valid() {
      forall k :: 0 <= k < |edges| ==> edges[k].source < |nodes| && edges[k].target < |nodes|
    }
  }

  /** A dylib UDF; T is the Arrow type payload. */
  datatype DylibUdfConfig<T> = DylibUdfConfig(dylibPath: string, argTypes: seq<T>, returnType: T)

  datatype ProgramConfig<T> = ProgramConfig(udfDylibs: map<string, DylibUdfConfig<T>>)

  datatype LogicalProgram<S, T> = LogicalProgram(graph: LogicalGraph<S>, programConfig: ProgramConfig<T>)
}
