/** Pipelines: documents whose nodes form one path from a source to the terminal. Pre-flight accepts them, and what they
    compute can be written down stage by stage. */
module Pipelines {
  import opened Closure
  import opened Collections
  import opened Compositionality
  import opened Cycles
  import opened Diagnostics
  import opened Documents
  import opened Evaluator
  import opened Execution
  import opened FlatDocuments
  import opened Instantiation
  import opened Market
  import opened Planning
  import opened Portfolio
  import opened PortWiring
  import opened Preflight
  import opened StrategyEvaluation
  import opened Validation

  /** One node of a pipeline: its type, its parameters, and the port it hands on to the next one. */
  datatype Stage = Stage(typeId: TypeId, params: Params, out: PortName)

  function NodesOf(stages: seq<Stage>): seq<Node> {
    seq(|stages|, k requires 0 <= k < |stages| => Registered(k, stages[k].typeId, 0, stages[k].params))
  }

  function EdgesOf(stages: seq<Stage>): seq<Edge> {
    if stages == [] then []
    else seq(|stages| - 1, k requires 0 <= k < |stages| - 1 => Edge(k, stages[k].out, k + 1, stages[k].out))
  }

  function PipelineDocument(stages: seq<Stage>, bps: real): Document {
    Document(true, [], Graph(NodesOf(stages), EdgesOf(stages)), bps)
  }

  /** The type of a stage, in the catalog. */
  function TypeAt(cat: Catalog, s: Stage): Documents.Resolution {
    cat.Resolve(s.typeId, 0)
  }

  /** What a stage must declare: one output, handed on, except at the end; one required input, the predecessor's output. */
  predicate StageFits(cat: Catalog, stages: seq<Stage>, k: nat)
    requires k < |stages|
  {
    match TypeAt(cat, stages[k])
    case Resolved(i) =>
      && i.paramsOk(stages[k].params)
      && (if k + 1 < |stages| then |i.outputs| == 1 && i.outputs[0].name == stages[k].out else i.outputs == [])
      && (if k == 0 then forall p :: p in i.inputs ==> !p.required
          else |i.inputs| == 1 && i.inputs[0].name == stages[k - 1].out && i.inputs[0].required && FedBy(cat, stages[k - 1], i.inputs[0].portType))
    case _ => false
  }

  predicate FedBy(cat: Catalog, s: Stage, t: PortType) {
    match TypeAt(cat, s)
    case Resolved(i) => |i.outputs| == 1 && i.outputs[0].name == s.out && IsCompatible(i.outputs[0].portType, t)
    case _ => false
  }

  ghost predicate PipelineOk(cat: Catalog, stages: seq<Stage>) {
    && stages != []
    && (forall k :: 0 <= k < |stages| ==> StageFits(cat, stages, k))
    && (forall k :: 0 <= k < |stages| ==> (stages[k].typeId == TERMINAL_TYPE_ID <==> k == |stages| - 1))
  }

  /* ---- the graph ---- */

  lemma PipelineNodes(stages: seq<Stage>)
    ensures UniqueIds(NodesOf(stages))
    ensures forall id :: id in NodeIds(NodesOf(stages)) <==> 0 <= id < |stages|
    ensures forall k :: 0 <= k < |stages| ==> NodeOf(NodesOf(stages), k) == NodesOf(stages)[k]
  {
    var nodes := NodesOf(stages);
    forall k | 0 <= k < |stages| ensures k in NodeIds(nodes) && NodeOf(nodes, k) == nodes[k] {
      var n := nodes[k];
      assert n in nodes;
      NodeOfUnique(nodes, n);
    }
  }

  lemma PipelinePairs(stages: seq<Stage>)
    ensures forall a, b :: (a, b) in EdgePairs(EdgesOf(stages)) <==> 0 <= a < |stages| - 1 && b == a + 1
  {
    var edges := EdgesOf(stages);
    forall a, b | 0 <= a < |stages| - 1 && b == a + 1 ensures (a, b) in EdgePairs(edges) {
      var e := edges[a];
      assert e in edges;
    }
  }

  lemma {:induction false} WalkClimbs(pairs: Pairs, w: seq<int>, i: nat)
    requires Walk(pairs, w) && i < |w| && forall a, b :: (a, b) in pairs ==> a < b
    ensures w[0] <= w[i] && (i > 0 ==> w[0] < w[i])
  {
    if i > 0 {
      WalkClimbs(pairs, w, i - 1);
      assert (w[i - 1], w[i - 1 + 1]) in pairs;
    }
  }

  lemma PipelineGraphOk(stages: seq<Stage>)
    ensures GraphOk(Graph(NodesOf(stages), EdgesOf(stages)), {})
  {
    hide NodesOf, EdgesOf;
    PipelineNodes(stages);
    PipelinePairs(stages);
    var pairs := EdgePairs(EdgesOf(stages));
    forall w ensures !ClosedWalk(pairs, w) {
      if |w| >= 2 && Walk(pairs, w) { WalkClimbs(pairs, w, |w| - 1); }
    }
    forall n | n in NodesOf(stages) ensures n.Registered? { NodesRegistered(stages, n); }
  }

  lemma NodesRegistered(stages: seq<Stage>, n: Node)
    requires n in NodesOf(stages)
    ensures 0 <= n.id < |stages| && n == NodesOf(stages)[n.id] && n.Registered?
  {
  }

  lemma PipelineTargets(stages: seq<Stage>)
    ensures forall k, p :: (k, p) in Targets(EdgesOf(stages)) <==> 1 <= k < |stages| && p == stages[k - 1].out
    ensures DuplicateTargets(EdgesOf(stages)) == {}
  {
    var edges := EdgesOf(stages);
    forall k, p | 1 <= k < |stages| && p == stages[k - 1].out ensures (k, p) in Targets(edges) {
      assert Target(edges[k - 1]) == (k, p);
    }
    forall j | 0 <= j < |edges| ensures !TargetedBefore(edges, j) {
    }
  }

  /** The edge into a stage comes from its predecessor. */
  lemma PipelineSource(stages: seq<Stage>, k: nat, p: PortName)
    requires k < |stages|
    ensures SourceOf(EdgesOf(stages), k, p) == if k > 0 && p == stages[k - 1].out then Some((k - 1, p)) else None
  {
    var edges := EdgesOf(stages);
    var source := SourceOf(edges, k, p);
    if source.Some? {
      var e := Edge(source.value.0, source.value.1, k, p);
      assert e in edges;
    } else if k > 0 {
      var e := edges[k - 1];
      assert e in edges;
    }
  }

  lemma {:induction false} OneTerminal(nodes: seq<Node>, n: nat)
    requires n <= |nodes| && forall k :: 0 <= k < |nodes| ==> nodes[k].Registered?
    requires nodes != [] ==> forall k :: 0 <= k < |nodes| ==> (nodes[k].typeId == TERMINAL_TYPE_ID <==> k == |nodes| - 1)
    ensures TerminalNodes(nodes[..n]) == if n == |nodes| && n > 0 then [nodes[n - 1]] else []
  {
    if n > 0 {
      assert nodes[..n][..n - 1] == nodes[..n - 1];
      OneTerminal(nodes, n - 1);
    }
  }

  lemma PipelineTerminal(cat: Catalog, stages: seq<Stage>)
    requires PipelineOk(cat, stages)
    ensures TerminalNodes(NodesOf(stages)) == [NodesOf(stages)[|stages| - 1]]
  {
    var nodes := NodesOf(stages);
    OneTerminal(nodes, |nodes|);
    assert nodes[..|nodes|] == nodes;
  }

  lemma SingleOutput(ports: seq<OutputPort>)
    requires |ports| == 1
    ensures OutputTypes(ports) == map[ports[0].name := ports[0].portType]
  {
    assert ports[..0] == [];
  }

  lemma SingleInputTypes(ports: seq<InputPort>)
    requires |ports| == 1
    ensures InputTypes(ports) == map[ports[0].name := ports[0].portType]
  {
    assert ports[..0] == [];
  }

  /** The tables' row of a stage. */
  lemma PipelineRow(cat: Catalog, stages: seq<Stage>, k: nat)
    requires k < |stages| && TypeAt(cat, stages[k]).Resolved?
    ensures var t, i := Tables(cat, map[], NodesOf(stages)), TypeAt(cat, stages[k]).implementation;
      Get(t.outputs, k) == Some(OutputTypes(i.outputs)) && Get(t.inputs, k) == Some(InputTypes(i.inputs))
  {
    hide OutputTypes, InputTypes, UniqueIds, NodeOf;
    PipelineNodes(stages);
    var t, nodes := Tables(cat, map[], NodesOf(stages)), NodesOf(stages);
    assert Get(t.outputs, k) == NodeOutputs(cat, map[], NodeOf(nodes, k));
    assert Get(t.inputs, k) == NodeInputs(cat, map[], NodeOf(nodes, k));
  }

  lemma PipelineEdgeFits(cat: Catalog, stages: seq<Stage>, k: nat)
    requires PipelineOk(cat, stages) && k + 1 < |stages|
    ensures EdgeFits(Tables(cat, map[], NodesOf(stages)), EdgesOf(stages)[k])
  {
    hide OutputTypes, InputTypes, IsCompatible, Tables, NodesOf;
    assert StageFits(cat, stages, k) && StageFits(cat, stages, k + 1);
    PipelineRow(cat, stages, k);
    PipelineRow(cat, stages, k + 1);
    SingleOutput(TypeAt(cat, stages[k]).implementation.outputs);
    SingleInputTypes(TypeAt(cat, stages[k + 1]).implementation.inputs);
  }

  lemma PipelineAcceptable(cat: Catalog, stages: seq<Stage>, bps: real)
    requires PipelineOk(cat, stages)
    ensures FlatAcceptable(cat, PipelineDocument(stages, bps)) && Flat(PipelineDocument(stages, bps))
  {
    hide Tables, EdgeFits, TerminalNodes, DuplicateTargets, Targets, GraphOk;
    var g := PipelineDocument(stages, bps).graph;
    PipelineGraphOk(stages);
    PipelineTargets(stages);
    PipelineTerminal(cat, stages);
    forall n | n in g.nodes ensures NodeAccepted(cat, g, n) {
      NodesRegistered(stages, n);
      assert StageFits(cat, stages, n.id);
    }
    forall e | e in g.edges ensures EdgeFits(Tables(cat, map[], g.nodes), e) {
      var k :| 0 <= k < |g.edges| && g.edges[k] == e;
      PipelineEdgeFits(cat, stages, k);
    }
  }

  /** Pre-flight accepts every pipeline, against any store. */
  lemma PipelineAccepted(cat: Catalog, stages: seq<Stage>, bps: real, store: Definitions)
    requires PipelineOk(cat, stages) && KeyedByIdentity(store)
    ensures PreflightOf(cat, PipelineDocument(stages, bps), store).Ok()
    ensures RootInstance(cat, PipelineDocument(stages, bps), store) == RootOf(PipelineDocument(stages, bps), map[])
  {
    hide PreflightOf, FlatAcceptable, PipelineDocument, RootOf, Flat, KeyedByIdentity;
    PipelineAcceptable(cat, stages, bps);
    FlatPreflightIff(cat, PipelineDocument(stages, bps), store);
  }
}
