/** Port types, runtime values, nodes, edges and component definitions: quantize/schema/types.py, nodes.py, components.py,
    quantize/compatibility.py, quantize/runtime/values.py, quantize/runtime/binding.py. */
module Documents {
  import opened Collections
  import opened Diagnostics
  import opened Market
  import opened Portfolio

  type NodeId = int
  type PortName = int
  type TypeId = int
  type Version = int
  type RefId = int
  type ParamName = int
  type Json = int
  type ComponentKey = int
  type Path = seq<NodeId>

  type Params = map<ParamName, Json>

  /* ---- the type lattice ---- */

  datatype ScalarKind = Number | Integer | Boolean
  datatype SectionKind = NumberSection | BooleanSection
  datatype PortType = ScalarType(dtype: ScalarKind) | AssetSetType | CrossSectionType(section: SectionKind)
                    | TimeSeriesType | PortfolioTargetsType

  /** An exact match, or the one explicit widening from Integer to Number. */
  predicate IsCompatible(source: PortType, destination: PortType) {
    source == destination
    || (source.ScalarType? && source.dtype == Integer && destination.ScalarType? && destination.dtype == Number)
  }

  /** Compatibility composes along a chain of connections. */
  lemma CompatibleTransitive(a: PortType, b: PortType, c: PortType)
    requires IsCompatible(a, b) && IsCompatible(b, c)
    ensures IsCompatible(a, c)
  {
  }

  /* ---- runtime values ---- */

  datatype Scalar = NumberScalar(n: real) | IntegerScalar(i: int) | BooleanScalar(b: bool)

  datatype Value =
    | ScalarValue(scalar: Scalar)
    | AssetSetValue(assets: set<Asset>)
    | NumbersValue(domain: set<Asset>, numbers: map<Asset, real>)
    | BooleansValue(domain: set<Asset>, booleans: map<Asset, bool>)
    | TimeSeriesValue(series: map<Asset, seq<Point>>)
    | PortfolioTargetsValue(weights: Weights)

  function PortTypeOf(v: Value): PortType {
    match v
    case ScalarValue(NumberScalar(_)) => ScalarType(Number)
    case ScalarValue(IntegerScalar(_)) => ScalarType(Integer)
    case ScalarValue(BooleanScalar(_)) => ScalarType(Boolean)
    case AssetSetValue(_) => AssetSetType
    case NumbersValue(_, _) => CrossSectionType(NumberSection)
    case BooleansValue(_, _) => CrossSectionType(BooleanSection)
    case TimeSeriesValue(_) => TimeSeriesType
    case PortfolioTargetsValue(_) => PortfolioTargetsType
  }

  /* ---- graphs ---- */

  datatype Node =
    | Registered(id: NodeId, typeId: TypeId, version: Version, params: Params)
    | Component(id: NodeId, ref: RefId, params: Params)

  datatype Edge = Edge(src: NodeId, srcPort: PortName, dst: NodeId, dstPort: PortName)

  datatype Graph = Graph(nodes: seq<Node>, edges: seq<Edge>)

  datatype ComponentRef = ComponentRef(id: RefId, key: ComponentKey)

  datatype ExposedPort = ExposedPort(name: PortName, portType: PortType, node: NodeId, port: PortName)

  /** A JSON Schema as this program uses one: it may itself be invalid, and it accepts or rejects a value. */
  datatype Schema = Schema(wellFormed: bool, accepts: Json -> bool)

  datatype ExposedParam = ExposedParam(name: ParamName, node: NodeId, param: ParamName, schema: Schema)

  datatype Definition = Definition(key: ComponentKey, schemaSupported: bool, refs: seq<ComponentRef>, graph: Graph,
                                   exposedInputs: seq<ExposedPort>, exposedOutputs: seq<ExposedPort>,
                                   exposedParams: seq<ExposedParam>)

  datatype Document = Document(schemaSupported: bool, refs: seq<ComponentRef>, graph: Graph, bps: real)

  /* ---- executable node types ---- */

  datatype InputPort = InputPort(name: PortName, portType: PortType, required: bool)
  datatype OutputPort = OutputPort(name: PortName, portType: PortType)

  /** What a node hands back under one port: a runtime value, or something that is none. */
  datatype Produced = Runtime(value: Value) | NotAValue

  /** One trace emission of a node: event type and payload. */
  datatype Emission = Emission(eventType: int, payload: seq<Json>)

  /** What one node keeps between evaluations: a dated value per asset. */
  type Cache = map<Asset, map<Date, real>>

  /** The run's memo: every node's own part of it, under the node's path. */
  type Memo = map<Path, Cache>

  function CacheIn(memo: Memo, path: Path): Cache {
    if path in memo then memo[path] else map[]
  }

  /** Everything one node evaluation may see: its own place and parameters, its inputs, the view, and its own part of the
      memo if the run has one. */
  datatype NodeInvocation = NodeInvocation(path: Path, params: Params, inputs: map<PortName, Value>, view: DataView, cache: Option<Cache>)
  {
    /** The same invocation in a run without a memo. */
    function Plain(): NodeInvocation { this.(cache := None) }
    function Cached(): Cache { if cache.Some? then cache.value else map[] }
  }

  datatype NodeOutcome = Outputs(ports: map<PortName, Produced>) | Raised

  /** A node may have traced, and written to its part of the memo, before it raised. */
  datatype NodeResult = NodeResult(emitted: seq<Emission>, outcome: NodeOutcome, cache: Cache)

  /** A pure node type: its ports, its parameter check, its evaluation and its declared warm-up. */
  datatype Implementation = Implementation(inputs: seq<InputPort>, outputs: seq<OutputPort>,
                                           paramsOk: Params -> bool,
                                           evaluate: NodeInvocation -> NodeResult,
                                           warmup: Params -> int)

  datatype Resolution = Resolved(implementation: Implementation) | UnknownType | VersionUnavailable

  /** Exact (type, version) lookup, never "latest". */
  datatype Catalog = Catalog(byKey: map<(TypeId, Version), Implementation>)
  {
    function Resolve(typeId: TypeId, version: Version): Resolution {
      if (typeId, version) in byKey then Resolved(byKey[(typeId, version)])
      else if exists k :: k in byKey && k.0 == typeId then VersionUnavailable
      else UnknownType
    }
  }

  /** Declared output names and types. */
  function OutputTypes(ports: seq<OutputPort>): (m: map<PortName, PortType>)
    ensures forall i :: 0 <= i < |ports| ==> ports[i].name in m
  {
    if ports == [] then map[]
    else OutputTypes(ports[..|ports| - 1])[ports[|ports| - 1].name := ports[|ports| - 1].portType]
  }

  function InputTypes(ports: seq<InputPort>): (m: map<PortName, PortType>)
    ensures forall i :: 0 <= i < |ports| ==> ports[i].name in m
  {
    if ports == [] then map[]
    else InputTypes(ports[..|ports| - 1])[ports[|ports| - 1].name := ports[|ports| - 1].portType]
  }

  function ExposedTypes(ports: seq<ExposedPort>): (m: map<PortName, PortType>)
    ensures forall i :: 0 <= i < |ports| ==> ports[i].name in m
  {
    if ports == [] then map[]
    else ExposedTypes(ports[..|ports| - 1])[ports[|ports| - 1].name := ports[|ports| - 1].portType]
  }

  /* ---- graph vocabulary ---- */

  function NodeIds(nodes: seq<Node>): (r: set<NodeId>)
    ensures forall n :: n in nodes ==> n.id in r
    ensures forall x :: x in r ==> exists n :: n in nodes && n.id == x
  {
    set n | n in nodes :: n.id
  }

  ghost predicate UniqueIds(nodes: seq<Node>) {
    forall i, j :: 0 <= i < j < |nodes| ==> nodes[i].id != nodes[j].id
  }

  /** by_id: the last node with the id. */
  function NodeOf(nodes: seq<Node>, id: NodeId): (n: Node)
    requires id in NodeIds(nodes)
    ensures n in nodes && n.id == id
  {
    var last := nodes[|nodes| - 1];
    assert forall n :: n in nodes <==> n in nodes[..|nodes| - 1] || n == last;
    if last.id == id then last else NodeOf(nodes[..|nodes| - 1], id)
  }

  lemma NodeOfUnique(nodes: seq<Node>, n: Node)
    requires UniqueIds(nodes) && n in nodes
    ensures NodeOf(nodes, n.id) == n
  {
    var m := NodeOf(nodes, n.id);
    var i :| 0 <= i < |nodes| && nodes[i] == n;
    var j :| 0 <= j < |nodes| && nodes[j] == m;
  }

  /** The distinct dependency pairs of the edges. */
  function EdgePairs(edges: seq<Edge>): (r: set<(NodeId, NodeId)>)
    ensures forall e :: e in edges ==> (e.src, e.dst) in r
    ensures forall p :: p in r ==> exists e :: e in edges && p == (e.src, e.dst)
  {
    set e | e in edges :: (e.src, e.dst)
  }

  /** The edge feeding an input port: the last one, as in a dictionary comprehension. */
  function SourceOf(edges: seq<Edge>, node: NodeId, port: PortName): (r: Option<(NodeId, PortName)>)
    ensures r.Some? ==> Edge(r.value.0, r.value.1, node, port) in edges
    ensures r.None? ==> forall e :: e in edges ==> !(e.dst == node && e.dstPort == port)
  {
    if edges == [] then None
    else
      var last := edges[|edges| - 1];
      assert forall e :: e in edges <==> e in edges[..|edges| - 1] || e == last;
      if last.dst == node && last.dstPort == port then Some((last.src, last.srcPort))
      else SourceOf(edges[..|edges| - 1], node, port)
  }

  function RefKey(refs: seq<ComponentRef>, ref: RefId): (r: Option<ComponentKey>)
    ensures r.Some? <==> exists k :: 0 <= k < |refs| && refs[k].id == ref
    ensures r.Some? ==> exists k :: 0 <= k < |refs| && refs[k].id == ref && refs[k].key == r.value
  {
    if refs == [] then None
    else if refs[0].id == ref then
      assert refs[0].id == ref && refs[0].key == refs[0].key;
      Some(refs[0].key)
    else
      var r := RefKey(refs[1..], ref);
      assert forall k :: 0 <= k < |refs[1..]| ==> refs[1..][k] == refs[k + 1];
      r
  }
}
