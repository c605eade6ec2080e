/**
 * The gRPC/protobuf messages of `arroyo_rpc::grpc::api` that the logical
 * layer converts to and from: the index-addressed wire form of a program
 * (`ArrowProgram` and its parts) and the presentation view (`JobGraph`).
 * Protobuf scalar widths are kept as bounded integer types.
 */
module Api {
  import opened Wrappers

  type byte = x: int | 0 <= x < 0x100
  type u32 = x: int | 0 <= x < 0x1_0000_0000
  type i32 = x: int | -0x8000_0000 <= x < 0x8000_0000

  /** The wire edge type; `Unused` is the protobuf default, never a real edge kind. */
  datatype EdgeType = Unused | Forward | Shuffle | LeftJoin | RightJoin

  datatype ArrowNode = ArrowNode(
    nodeIndex: i32,
    nodeId: string,
    parallelism: u32,
    description: string,
    operatorName: string,
    operatorConfig: seq<byte>)

  /** The wire schema: the Arrow schema as JSON text, plus timestamp and key field positions. */
  datatype ArroyoSchema = ArroyoSchema(
    arrowSchema: string,
    timestampIndex: u32,
    keyIndices: seq<u32>)

  /** An edge between two node indices; an empty projection stands for "no projection". */
  datatype ArrowEdge = ArrowEdge(
    source: i32,
    target: i32,
    schema: Option<ArroyoSchema>,
    edgeType: EdgeType,
    projection: seq<u32>)

  /** A dylib UDF whose argument and return types are protobuf-encoded `ArrowType` bytes. */
  datatype ArrowDylibUdfConfig = ArrowDylibUdfConfig(
    dylibPath: string,
    argTypes: seq<seq<byte>>,
    returnType: seq<byte>)

  datatype ArrowProgramConfig = ArrowProgramConfig(udfDylibs: map<string, ArrowDylibUdfConfig>)

  datatype ArrowProgram = ArrowProgram(
    nodes: seq<ArrowNode>,
    edges: seq<ArrowEdge>,
    programConfig: Option<ArrowProgramConfig>)

  datatype JobNode = JobNode(nodeId: string, operator: string, parallelism: u32)

  datatype JobEdge = JobEdge(
    srcId: string,
    destId: string,
    keyType: string,
    valueType: string,
    edgeType: string)

  datatype JobGraph = JobGraph(nodes: seq<JobNode>, edges: seq<JobEdge>)
}
