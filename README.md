# Arroyo logical dataflow graph, modelled in Dafny

Arroyo compiles a streaming SQL query into a *logical program*. It is a directed graph whose nodes are operators and whose edges carry records of a given schema, plus a registry of dynamically loaded UDFs. This project models that intermediate representation and proves properties of it:

- the operator and edge-type taxonomies, with their text and wire conversions;
- the graph queries and mutators: `task_count`, `sources`, `tasks_per_operator`, `update_parallelism` and `as_job_graph`;
- the wire codec between `LogicalProgram` and the protobuf `ArrowProgram`, and the UDF-registry conversions it uses;
- the shaping of the program fingerprint `get_hash`;
- the layout of public identifiers (`<prefix>_<code>`).

Files and modules:

| file | module | contents |
|---|---|---|
| `wrappers.dfy` | `Wrappers` | `Option`, `Result`, and `TryMapFrom` with its spec lemmas. `TryMapFrom` is the "convert each element in order, stop at the first failure" loop that both decode loops follow. |
| `api.dfy` | `Api` | The wire messages (`ArrowNode`, `ArrowEdge`, `ArroyoSchema`, `ArrowProgram`, `ArrowProgramConfig`, `ArrowDylibUdfConfig`), the `EdgeType` enum with its `Unused` sentinel, the `JobGraph` view, and the protobuf integer widths `i32`, `u32` and `byte`. |
| `logical.dfy` | `Logical` | The taxonomies, the data model (`LogicalNode`, `LogicalEdge`, `ArroyoSchema`, the graph, `ProgramConfig`, `LogicalProgram`) and the decode errors. |
| `queries.dfy` | `Queries` | The `LogicalProgram` methods and the laws about them. |
| `codec.dfy` | `Codec` | Encode, decode (as spec functions and as the `try_from` loop method), and the round-trip and failure laws. |
| `fingerprint.dfy` | `Fingerprint` | `get_hash`. |
| `public_ids.dfy` | `PublicIds` | `IdTypes`, the prefix table, `ALPHABET`, `ID_LENGTH` and `generate_id`. |

How the source's structures are represented:

- **The graph.** A petgraph `DiGraph` is modelled as a sequence of node weights, whose indices are the dense petgraph indices in insertion order, plus a sequence of edges `(source, target, weight)`. `LogicalGraph.Valid` says every endpoint names a node.
- **`update_parallelism`.** The source rewrites node weights in place. It is a method over an `array<LogicalNode>`, proved against the value-level function `OverriddenNodes` / `WithParallelism`.
- **`tasks_per_operator` and `try_from`.** Both build their results in loops, so they are methods with loop invariants. Each is proved equal to a specification function (`TasksPerOperatorOf`, `Decode`).
- **Opaque payloads.** The Arrow schema (serde_json) and the `ArrowType` protobuf blobs are type parameters `S` and `T`. Their encoders and decoders are passed in as `PayloadCodecs`. The round-trip lemmas require `Inverse(c)`: each decoder undoes its encoder.
- **Errors and panics.** The `?` on the operator name is already an `Err` return in the source; the model reports it as `UnknownOperator`. Every panic on the decode path also becomes an explicit `LogicalError`:
  - the `unwrap`s on the `id_map` lookups (`DanglingEdgeReference`);
  - the `unwrap` on the missing schema (`MissingSchema`);
  - the `Unused` panic (`SentinelEdgeType`);
  - the `unwrap` on the schema JSON (`InvalidSchema`);
  - the `expect`s on the UDF types (`InvalidUdfType`).

  The decoder evaluates these checks in the source's order.

## Model

| member | source | states |
|---|---|---|
| Logical.OperatorNamesComplete | crates/arroyo-datastream/src/logical.rs:21-34 | The operator list used by the parser contains every `OperatorName` variant. |
| Logical.FindOperator | crates/arroyo-datastream/src/logical.rs:21-34 | A found operator has exactly the searched text; if none is found, no operator from that position on has that text. |
| Logical.ParseOperatorName | crates/arroyo-datastream/src/logical.rs:21-34 | The `EnumString` parser: a parsed operator displays as the input text; a failure is `UnknownOperator` carrying the input. |
| Logical.ParseOperatorNameFailsIff | crates/arroyo-datastream/src/logical.rs:21-34 | Parsing fails exactly when the text is no operator's display text. |
| Logical.OperatorNameTextInjective | crates/arroyo-datastream/src/logical.rs:21-34 | Distinct operators have distinct display texts. |
| Logical.OperatorNameText | crates/arroyo-datastream/src/logical.rs:21 | The strum `Display` text of an operator is its variant name: non-empty and starting with a capital letter. |
| Logical.OperatorNameRoundTrip | crates/arroyo-datastream/src/logical.rs:21-34 | Every operator's display text parses back to that operator. |
| Logical.EdgeTypeOrdinal | crates/arroyo-datastream/src/logical.rs:36-42 | The derived ordering places each edge type at one of four positions. |
| Logical.EdgeTypeOrderTotal | crates/arroyo-datastream/src/logical.rs:36-42 | The derived `Ord` on edge types follows declaration order (`Forward < Shuffle < LeftJoin < RightJoin`) and is irreflexive, transitive and total. |
| Logical.EdgeTypeToWire | crates/arroyo-datastream/src/logical.rs:67-76 | Converting a logical edge type to the wire enum never yields `Unused`. |
| Logical.EdgeTypeFromWire | crates/arroyo-datastream/src/logical.rs:55-65 | Converting from the wire enum fails exactly on `Unused`, with `SentinelEdgeType`; otherwise converting back gives the input. |
| Logical.EdgeTypeRoundTrip | crates/arroyo-datastream/src/logical.rs:55-76 | Logical edge type to wire and back is the identity. |
| Logical.EdgeTypeDebugName | crates/arroyo-datastream/src/logical.rs:216 | The derived `Debug` text of an edge type is its variant name: non-empty and starting with a capital letter. |
| Logical.EdgeTypeDebugNameInjective | crates/arroyo-datastream/src/logical.rs:216 | Distinct edge types have distinct `Debug` names, so the job-graph edge text identifies the edge type. |
| Queries.TaskCount | crates/arroyo-datastream/src/logical.rs:157-160 | The task count is the sum of all node parallelisms; it is zero exactly when every node has parallelism zero. |
| Queries.NodeTasksWithinTaskCount | crates/arroyo-datastream/src/logical.rs:157-160 | No node runs more tasks than the program's task count. |
| Queries.TaskCountPointUpdate | crates/arroyo-datastream/src/logical.rs:157-160 | Changing one node's parallelism changes the summed task count by exactly the difference. |
| Queries.TargetsSpec | crates/arroyo-datastream/src/logical.rs:162-168 | A node position is an edge target exactly when some edge points to it. |
| Queries.Sources | crates/arroyo-datastream/src/logical.rs:162-168 | Every source is the id of some node, and a graph with no edges has every node id as a source. |
| Queries.SourcesSpec | crates/arroyo-datastream/src/logical.rs:162-168 | An operator id is in `sources()` exactly when some node with that id has no incoming edge. |
| Queries.TasksPerOperatorKeys | crates/arroyo-datastream/src/logical.rs:186-192 | The keys of `tasks_per_operator` are exactly the nodes' operator ids. |
| Queries.TasksPerOperatorLastWins | crates/arroyo-datastream/src/logical.rs:186-192 | Each id maps to the parallelism of its last node, since later insertions overwrite earlier ones. |
| Queries.TasksPerOperator | crates/arroyo-datastream/src/logical.rs:186-192 | The insertion loop computes `TasksPerOperatorOf`, the map whose keys and values the two lemmas above describe. |
| Queries.OverriddenNodes | crates/arroyo-datastream/src/logical.rs:149-155 | Same node count. A node whose id is overridden gets exactly the override; any other node is unchanged; no field other than parallelism changes. |
| Queries.WithParallelism | crates/arroyo-datastream/src/logical.rs:149-155 | As a program: only the nodes change as above; the edges and the UDF registry are unchanged. |
| Queries.UpdateParallelism | crates/arroyo-datastream/src/logical.rs:149-155 | The in-place loop over the node weights leaves exactly `OverriddenNodes` of the old weights. |
| Queries.UpdateParallelismIdempotent | crates/arroyo-datastream/src/logical.rs:149-155 | Applying the same overrides twice equals applying them once. |
| Queries.UpdateParallelismEmpty | crates/arroyo-datastream/src/logical.rs:149-155 | Empty overrides change nothing. |
| Queries.UpdateWithOwnTasksIsNoOp | crates/arroyo-datastream/src/logical.rs:149-155 | When operator ids are distinct, overriding with the program's own `tasks_per_operator` changes nothing. |
| Queries.RewriteTasksInsert | crates/arroyo-datastream/src/logical.rs:186-192 | Rewriting a per-operator map by overrides commutes with inserting one more operator. |
| Queries.TasksPerOperatorAfterUpdate | crates/arroyo-datastream/src/logical.rs:149-155 | After `update_parallelism`, `tasks_per_operator` is the old map with every overridden id set to its override. |
| Queries.UpdateKeepsSources | crates/arroyo-datastream/src/logical.rs:149-155 | `update_parallelism` does not change `sources()`. |
| Queries.UpdateKeepsValid | crates/arroyo-datastream/src/logical.rs:149-155 | `update_parallelism` keeps every edge endpoint valid. |
| Queries.AsJobGraph | crates/arroyo-datastream/src/logical.rs:194-222 | One job node per node, in node order, with id, description and parallelism. One job edge per edge, in edge order: endpoint operator ids, `"()"` key and value types, and the edge type's `Debug` name. |
| Queries.JobGraphIgnoresPayloads | crates/arroyo-datastream/src/logical.rs:194-222 | The job graph depends only on node ids, descriptions and parallelism, and on edge endpoints and edge types. |
| Queries.ScenarioQueries | crates/arroyo-datastream/src/logical.rs:149-192 | On a source→aggregate→sink program with parallelism 2/4/1: 7 tasks, sources `{"src"}`, and the per-operator map. After overriding `agg` to 8: 11 tasks and the updated map. |
| Codec.UdfToWire | crates/arroyo-datastream/src/logical.rs:284-292 | The path is kept; each argument type and the return type become their protobuf bytes, in order. |
| Codec.DecodeTypes | crates/arroyo-datastream/src/logical.rs:298-302 | Decoding a list of type blobs succeeds exactly when every blob decodes, giving each decoded type at its position. |
| Codec.UdfFromWire | crates/arroyo-datastream/src/logical.rs:294-307 | Succeeds exactly when every argument blob and the return blob decode; the failure is `InvalidUdfType`; the path is kept and every type is the decoded blob. |
| Codec.UdfRoundTrip | crates/arroyo-datastream/src/logical.rs:284-307 | A UDF config survives encoding and decoding. |
| Codec.ConfigToWire | crates/arroyo-datastream/src/logical.rs:309-319 | Same UDF names; each entry encoded. |
| Codec.ConfigFromWire | crates/arroyo-datastream/src/logical.rs:321-331 | Succeeds exactly when every entry decodes; the failure is `InvalidUdfType`; same names, each entry decoded. |
| Codec.ConfigRoundTrip | crates/arroyo-datastream/src/logical.rs:284-331 | The UDF registry survives encoding and decoding. |
| Codec.Encode | crates/arroyo-datastream/src/logical.rs:333-382 | Node `i` is sent with `node_index = i` and all its fields. Edge endpoints are sent as node positions, with the wire edge type and the schema as JSON plus positions. A `None` projection is sent as `[]`, `Some(p)` as `p`. The program config is always present. |
| Codec.DecodeNodeSpec | crates/arroyo-datastream/src/logical.rs:233-243 | A wire node decodes exactly when its operator name parses (else `UnknownOperator`), keeping every field. |
| Codec.DecodeNodesSpec | crates/arroyo-datastream/src/logical.rs:233-244 | The node loop succeeds exactly when every node decodes, giving node `i` at position `i`; otherwise it fails with the first failing node's error. |
| Codec.IdMapSpec | crates/arroyo-datastream/src/logical.rs:231-244 | Every wire `node_index` is a key of `id_map`. Each key maps to a node carrying that index, and to the last such node when indices repeat. |
| Codec.Decode | crates/arroyo-datastream/src/logical.rs:225-282 | A successfully decoded program has exactly one node per wire node and one edge per wire edge. |
| Codec.DecodeEdgeSpec | crates/arroyo-datastream/src/logical.rs:246-267 | A wire edge decodes exactly when both endpoints are in `id_map`, it has a schema, its type is not `Unused` and the schema JSON parses. Each failure is reported as its cause: dangling endpoint, `MissingSchema`, `SentinelEdgeType` or `InvalidSchema`, checked in that order. A decoded edge has the mapped endpoints, the same type and schema positions, and `None` for an empty projection. |
| Codec.DecodeEdgesSpec | crates/arroyo-datastream/src/logical.rs:246-268 | The edge loop succeeds exactly when every edge decodes, giving edge `k` at position `k`; otherwise it fails with the first failing edge's error. |
| Codec.DecodeShape | crates/arroyo-datastream/src/logical.rs:225-282 | A successful decode is a valid graph with one node per wire node and one edge per wire edge, each decoded from its wire counterpart, plus the decoded registry. |
| Codec.TryFromArrowProgram | crates/arroyo-datastream/src/logical.rs:228-281 | The `try_from` loops compute exactly `Decode`: nodes while filling `id_map`, then edges through `id_map`, then the config. |
| Codec.Normalized | crates/arroyo-datastream/src/logical.rs:261-265 | Only `Some([])` projections change, to `None`; nodes, endpoints, types, schemas and the registry are unchanged. |
| Codec.EncodeIgnoresEmptyProjection | crates/arroyo-datastream/src/logical.rs:367-371 | The encoder cannot tell `Some([])` from `None`. |
| Codec.IdMapOfEncoding | crates/arroyo-datastream/src/logical.rs:231-244 | Built from an encoding, `id_map` sends each node index to its own position. |
| Codec.RoundTrip | crates/arroyo-datastream/src/logical.rs:225-382 | Decoding the encoding succeeds and gives back the same nodes, edges and UDF registry, except that `Some([])` projections come back as `None`. This holds when the payload codecs are mutual inverses. |
| Codec.RoundTripExact | crates/arroyo-datastream/src/logical.rs:225-382 | Without `Some([])` projections the round trip is exact. |
| Codec.DecodeSucceedsIff | crates/arroyo-datastream/src/logical.rs:225-282 | Decoding succeeds exactly when every operator name parses, every edge decodes and the registry decodes. |
| Codec.DecodeRejects | crates/arroyo-datastream/src/logical.rs:239-249 | Decoding fails on an unparsable operator name, on an endpoint no wire node carries, on a missing schema, and on the `Unused` edge type. |
| Codec.DecodeMissingConfig | crates/arroyo-datastream/src/logical.rs:270-275 | A missing program config decodes to an empty UDF map. |
| Codec.RoundTripPreservesTasks | crates/arroyo-datastream/src/logical.rs:225-382 | The decoded encoding has the same task count and per-operator tasks. |
| Codec.NormalizedKeepsSources | crates/arroyo-datastream/src/logical.rs:162-168 | Normalising projections does not change the sources. |
| Codec.RoundTripPreservesViews | crates/arroyo-datastream/src/logical.rs:225-382 | The decoded encoding is valid and has the same sources and the same job graph. |
| Wrappers.TryMapFromSpec | crates/arroyo-datastream/src/logical.rs:233-268 | A convert-and-append run from position `k` succeeds exactly when every remaining element converts, appending their images in order; otherwise its error is that of the first failing element. |
| Wrappers.TryMapSpec | crates/arroyo-datastream/src/logical.rs:233-268 | The same for a whole run from the start. |
| Fingerprint.ToAsciiLowercase | crates/arroyo-datastream/src/logical.rs:182 | `A`-`Z` become the matching `a`-`z`; every other character is kept; the result is never an upper-case letter. |
| Fingerprint.ToAsciiLowercaseIdempotent | crates/arroyo-datastream/src/logical.rs:182 | Lower-casing twice is lower-casing once. |
| Fingerprint.HashOf | crates/arroyo-datastream/src/logical.rs:170-184 | The fingerprint of an encodable program has 16 characters and no upper-case letter. |
| Fingerprint.ShapeSpec | crates/arroyo-datastream/src/logical.rs:179-183 | The fingerprint has 16 characters, each the lower-cased draw at its position; alphanumeric draws give a lower-case alphanumeric fingerprint. |
| Fingerprint.GetHash | crates/arroyo-datastream/src/logical.rs:170-184 | The byte loop feeds the whole encoding into the hasher. The result is 16 lower-cased draws seeded with the digest, and contains no upper-case letter. |
| Fingerprint.HashIgnoresEmptyProjection | crates/arroyo-datastream/src/logical.rs:170-172 | `Some([])` and `None` projections give the same fingerprint. |
| PublicIds.Prefix | arroyo-rpc/src/public_ids.rs:28-41 | Every prefix is non-empty and contains no `_`. |
| PublicIds.AllIdTypesComplete | arroyo-rpc/src/public_ids.rs:12-25 | The variant list contains every `IdTypes` variant. |
| PublicIds.PrefixInjective | arroyo-rpc/src/public_ids.rs:28-41 | Distinct kinds have distinct prefixes. |
| PublicIds.GenerateId | arroyo-rpc/src/public_ids.rs:42-43 | From a 10-character alphabet code: the prefix, then `_`, then the code; length `|prefix| + 11`. |
| PublicIds.BeforeFirstUnderscore | arroyo-rpc/src/public_ids.rs:43 | The longest `_`-free prefix of a string, followed by `_` when shorter than the string. |
| PublicIds.BeforeFirstUnderscoreOfJoin | arroyo-rpc/src/public_ids.rs:43 | For a `_`-free `p`, the text before the first `_` of `p + "_" + rest` is `p`. |
| PublicIds.FindIdType | arroyo-rpc/src/public_ids.rs:28-41 | A found kind has exactly the searched prefix; if none is found, no kind from that position on has it. |
| PublicIds.IdTypeOf | arroyo-rpc/src/public_ids.rs:28-43 | A recognised identifier's kind has the text before its first `_` as its prefix. |
| PublicIds.GeneratedIdNamesItsType | arroyo-rpc/src/public_ids.rs:28-43 | A generated id's text before the first `_` is its prefix and recovers its kind, even for `pl`/`pld` and `ct`/`ctp`. |
| PublicIds.GeneratedIdsOfDistinctTypesDiffer | arroyo-rpc/src/public_ids.rs:28-43 | Ids of different kinds never coincide, whatever their codes. |
| PublicIds.AlphabetRuns | arroyo-rpc/src/public_ids.rs:5-10 | The digit, upper-case and lower-case runs are contiguous code ranges of 10, 26 and 26 characters. |
| PublicIds.AlphabetIsComputed | arroyo-rpc/src/public_ids.rs:5-10 | The listed alphabet is, position by position, digits, then `A`-`Z`, then `a`-`z`. |
| PublicIds.AlphabetSpec | arroyo-rpc/src/public_ids.rs:5-10 | 62 characters in strictly ascending order, hence pairwise distinct. A character is in the alphabet exactly when it is in `0-9`, `A-Z` or `a-z`. |
| PublicIds.CodeIsAlphanumeric | arroyo-rpc/src/public_ids.rs:5-10 | Every character of a code drawn from the alphabet is a digit or an ASCII letter. |

## Left out

- **Display glyphs.** The `Display` glyphs of `LogicalEdgeType` and the `Display`/`Debug` impls of `LogicalNode` (logical.rs:44-53, 116-126) are presentation only.
- **Protobuf integer enum.** The prost `i32` numbering of the wire `EdgeType` is not modelled; the wire enum is a Dafny datatype. prost's `edge_type()` maps an unknown value to the default `Unused`, so such an edge fails like one that carries `Unused`.
- **Byte encodings.** The protobuf encoding of the whole program (`encode_to_vec`) is a parameter. So are the Arrow schema JSON and the `ArrowType` encoding, through `PayloadCodecs`. The round trip takes their inverse laws as a precondition.
- **HashMap iteration order.** The order in the registry conversions (logical.rs:312-316, 324-328) is not observable through a Dafny `map`. There it does not change the outcome, since every failure is `InvalidUdfType` and the result is again a map. It does matter for the fingerprint; see `Fingerprint.GetHash` below.
- Fingerprint.GetHash: the encoder parameter `encodeToVec` gives one byte string per wire value. The real `encode_to_vec` writes the `udf_dylibs` map in HashMap iteration order (logical.rs:172, 312-316), so with two or more UDFs the fingerprint may differ between calls or processes. `HashOf`, `GetHash` and `HashIgnoresEmptyProjection` hold only for this idealised, order-fixing encoder.
- **Hashing internals.** `DefaultHasher`, `SmallRng::seed_from_u64` and `Alphanumeric` sampling are parameters (`Hasher`, `Sampler`). Only the shaping around them is modelled. Determinism across processes, sensitivity and collisions are not.
- **`nanoid!` generator.** The generator in `generate_id` is replaced by the `code` parameter.
- **`GenerateId` precondition.** `GenerateId` requires the code to have 10 characters drawn from `ALPHABET`, which is what `nanoid!(ID_LENGTH, &ALPHABET)` produces.
- **`Encode` narrowing casts.** `Encode` requires `Encodable`, that is, every narrowing cast is lossless: node positions below 2^31, and parallelism, schema positions and projection positions below 2^32. Truncation by `as i32` / `as u32` is not modelled.
- **`AsJobGraph` narrowing cast.** `AsJobGraph` requires parallelism below 2^32 for the same reason (`as u32`, logical.rs:201).
- **`GetHash` precondition.** `GetHash` requires `Encodable`, because it encodes the program first.
- Codec.EncodeSchema: the schema JSON encoder `schemaToJson` is total, so the `serde_json::to_string(..).unwrap()` panic at logical.rs:362 is not modelled.
- **`task_count` overflow.** The `usize` sum could overflow; `TaskCount` is an unbounded sum.
- **Unchecked schema positions.** Decoding does not check that the timestamp and key positions lie within the schema (logical.rs:256-259). The model follows the code and accepts any positions, even though a range check would be the natural design.
- **Casts on decode.** Decoding's `as usize` casts (logical.rs:241, 258, 259, 264) widen, so they are the identity here.
- **`crates/arroyo-df/src/test.rs`.** It holds asynchronous integration tests that drive the SQL planner and connectors; it is not part of this model.
- **`LogicalEdge::new`.** The constructor is the datatype constructor `LogicalEdge`; `project_all` is `Logical.ProjectAll`.
