/** Which fault every finding of a document's pre-flight names, layer by layer: quantize/components/resolve.py and
    quantize/evaluator/preflight.py. */
module PreflightCodes {
  import opened Closure
  import opened Collections
  import opened DefinitionChecks
  import opened Diagnostics
  import opened Documents
  import opened Evaluator
  import opened FindingCodes
  import opened Instantiation
  import opened Lookups
  import opened Market
  import opened Overrides
  import opened PortWiring
  import opened Preflight
  import opened Resolution
  import opened SemanticCodes
  import opened StrategyEvaluation
  import opened TreeWiring
  import opened Validation

  /* ---- the gates of component resolution ---- */

  /** Wrong with the pinned closure: a pin without a definition, a cycle, or a definition with a structural fault. */
  ghost predicate ClosureFault(store: Definitions, roots: set<ComponentKey>, code: Code, x: int) {
    match code
    case ComponentDefinitionUnavailable => x !in store && Reachable(store, roots, x)
    case ComponentDefinitionInvalid => exists k :: InClosure(store, roots, k) && store[k].key == x && Malformed(store[k])
    case _ => SetFault(Listed(ClosureOf(store, roots)), code, x)
  }

  ghost predicate InClosure(store: Definitions, roots: set<ComponentKey>, k: ComponentKey) {
    k in store && Reachable(store, roots, k)
  }

  ghost predicate Malformed(d: Definition) {
    exists code, x :: DefinitionFault(d, code, x)
  }

  lemma MalformedIff(d: Definition)
    ensures DefinitionFaults(d) != {} <==> Malformed(d)
  {
    hide DefinitionFaults, DefinitionFault;
    if f :| f in DefinitionFaults(d) {
      DefinitionFindings(d, f);
      assert DefinitionFault(d, f.code, f.subject);
    }
    if code, x :| DefinitionFault(d, code, x) {
      DefinitionFindings(d, Fault(code, x));
    }
  }

  lemma AbsentTold(store: Definitions, roots: set<ComponentKey>, f: Diagnostic)
    ensures f in AbsentFaults(AbsentOf(store, roots))
      <==> f == Fault(ComponentDefinitionUnavailable, f.subject) && f.subject !in store && Reachable(store, roots, f.subject)
  {
    hide Reachable, Mentioned;
  }

  /** The listed definitions of a closure are the stored ones that are reachable. */
  lemma ListedAre(store: Definitions, roots: set<ComponentKey>, d: Definition)
    ensures d in Listed(ClosureOf(store, roots)) <==> exists k :: InClosure(store, roots, k) && store[k] == d
  {
    hide Reachable, Listed;
    var fetched := ClosureOf(store, roots);
    ListedMembers(fetched);
    if k :| InClosure(store, roots, k) && store[k] == d {
      assert fetched[k] == d;
    }
    if d in Listed(fetched) {
      var k :| k in fetched && fetched[k] == d;
      assert InClosure(store, roots, k);
    }
  }

  lemma InvalidMember(ds: seq<Definition>, f: Diagnostic)
    ensures f in InvalidFaults(ds) <==> f == Fault(ComponentDefinitionInvalid, f.subject) && exists d: Definition :: d in ds && d.key == f.subject && Malformed(d)
  {
    hide DefinitionFaults, Malformed;
    forall d ensures DefinitionFaults(d) != {} <==> Malformed(d) {
      MalformedIff(d);
    }
    var rs := seq(|ds|, i requires 0 <= i < |ds| => InvalidFault(ds[i]));
    if d: Definition :| d in ds && d.key == f.subject && Malformed(d) && f == Fault(ComponentDefinitionInvalid, f.subject) {
      var i :| 0 <= i < |ds| && ds[i] == d;
      assert f in rs[i];
    }
  }

  lemma InvalidTold(store: Definitions, roots: set<ComponentKey>, f: Diagnostic)
    ensures f in InvalidFaults(Listed(ClosureOf(store, roots)))
      <==> f == Fault(ComponentDefinitionInvalid, f.subject)
           && exists k :: InClosure(store, roots, k) && store[k].key == f.subject && Malformed(store[k])
  {
    hide InvalidFaults, Malformed, Listed, ClosureOf, Reachable;
    var ds := Listed(ClosureOf(store, roots));
    InvalidMember(ds, f);
    forall d ensures d in ds <==> exists k :: InClosure(store, roots, k) && store[k] == d {
      ListedAre(store, roots, d);
    }
  }

  ghost function Gate(store: Definitions, roots: set<ComponentKey>): Findings {
    var ds := Listed(ClosureOf(store, roots));
    AbsentFaults(AbsentOf(store, roots)) + SetFaults(ds) + InvalidFaults(ds)
  }

  lemma GateTold(store: Definitions, roots: set<ComponentKey>, f: Diagnostic)
    ensures f in Gate(store, roots) <==> f.path == [] && ClosureFault(store, roots, f.code, f.subject)
  {
    hide Reachable, Listed, SetFaults, InvalidFaults, AbsentFaults, Malformed;
    AbsentTold(store, roots, f);
    InvalidTold(store, roots, f);
    SetFindings(Listed(ClosureOf(store, roots)), f);
    SetCodes(Listed(ClosureOf(store, roots)), f.code, f.subject);
    hide SetFault;
  }

  lemma SetCodes(ds: seq<Definition>, code: Code, x: int)
    ensures SetFault(ds, code, x) ==> code in {DuplicateComponentDefinition, ComponentDirectRecursion, ComponentCycle}
  {
  }

  /** A definition of the closure does not check against the registry. */
  ghost predicate RegistryFault(cat: Catalog, store: Definitions, roots: set<ComponentKey>, code: Code, x: int) {
    exists k :: InClosure(store, roots, k) && DefinitionSemanticFault(ScopeOf(cat, ClosureOf(store, roots), store[k]), store[k], code, x)
  }

  lemma RegistryMember(cat: Catalog, fetched: Definitions, ds: seq<Definition>, f: Diagnostic)
    ensures f in AllSemanticFaults(cat, fetched, ds)
      <==> f.path == [] && exists d: Definition :: d in ds && DefinitionSemanticFault(ScopeOf(cat, fetched, d), d, f.code, f.subject)
  {
    hide SemanticFaults, DefinitionSemanticFault, ScopeOf;
    forall d ensures f in SemanticFaults(cat, fetched, d) <==> f.path == [] && DefinitionSemanticFault(ScopeOf(cat, fetched, d), d, f.code, f.subject) {
      DefinitionSemanticFindings(cat, fetched, d, f);
    }
    var rs := seq(|ds|, i requires 0 <= i < |ds| => SemanticFaults(cat, fetched, ds[i]));
    if d: Definition :| d in ds && f in SemanticFaults(cat, fetched, d) {
      var i :| 0 <= i < |ds| && ds[i] == d;
      assert f in rs[i];
    }
  }

  lemma RegistryTold(cat: Catalog, store: Definitions, roots: set<ComponentKey>, f: Diagnostic)
    ensures f in AllSemanticFaults(cat, ClosureOf(store, roots), Listed(ClosureOf(store, roots)))
      <==> f.path == [] && RegistryFault(cat, store, roots, f.code, f.subject)
  {
    hide AllSemanticFaults, DefinitionSemanticFault, Listed, ClosureOf, Reachable, ScopeOf;
    var fetched := ClosureOf(store, roots);
    var ds := Listed(fetched);
    RegistryMember(cat, fetched, ds, f);
    forall d ensures d in ds <==> exists k :: InClosure(store, roots, k) && store[k] == d {
      ListedAre(store, roots, d);
    }
  }

  /* ---- parameters of instances ---- */

  /** A provided parameter that is not exposed, one that its schema rejects, or a registered node of the component that rejects
      its effective parameters. */
  ghost predicate ParamFaultOf(cat: Catalog, d: Definition, provided: Params, path: Path, f: Diagnostic) {
    || (f.path == path && f.subject in provided && ProvidedFaultOf(d, f.subject, provided[f.subject], f.code))
    || (f == Diagnostic(InvalidParameters, path + [f.subject], f.subject) && RejectsEffective(cat, d, provided, f.subject))
  }

  /** A parameter provided under a name that is not exposed, or rejected by the schema of its exposure. */
  ghost predicate ProvidedFaultOf(d: Definition, name: ParamName, value: Json, code: Code) {
    match code
    case UnknownComponentParam => forall p :: !Exposes(d, name, p)
    case InvalidComponentParam => exists p :: Exposes(d, name, p) && p.schema.wellFormed && !p.schema.accepts(value)
    case _ => false
  }

  ghost predicate RejectsEffective(cat: Catalog, d: Definition, provided: Params, x: int) {
    exists n :: n in d.graph.nodes && n.id == x && n.Registered? && (n.typeId, n.version) in cat.byKey
      && !cat.byKey[(n.typeId, n.version)].paramsOk(EffectiveParams(d, provided)[n.id])
  }

  lemma ProvidedTold(d: Definition, provided: Params, path: Path, f: Diagnostic)
    ensures f in ProvidedFaults(d, provided, path)
      <==> f.path == path && f.subject in provided && ProvidedFaultOf(d, f.subject, provided[f.subject], f.code)
  {
    hide ProvidedFaultOf;
    var names := Sorted(provided.Keys);
    var rs := seq(|names|, i requires 0 <= i < |names| => ProvidedFault(d, path, names[i], provided[names[i]]));
    forall name | name in provided
      ensures f in ProvidedFault(d, path, name, provided[name]) <==> f.path == path && f.subject == name && ProvidedFaultOf(d, name, provided[name], f.code)
    {
      ProvidedOne(d, path, name, provided[name], f);
    }
    if f.subject in provided && f in ProvidedFault(d, path, f.subject, provided[f.subject]) {
      assert f.subject in names;
      var i :| 0 <= i < |names| && names[i] == f.subject;
      assert f in rs[i];
    }
  }

  lemma ProvidedOne(d: Definition, path: Path, name: ParamName, value: Json, f: Diagnostic)
    ensures f in ProvidedFault(d, path, name, value) <==> f.path == path && f.subject == name && ProvidedFaultOf(d, name, value, f.code)
  {
    NamedIs(d, d.exposedParams, name);
    hide Exposes, ParamNamed;
    var named := ParamNamed(d.exposedParams, name);
    if named.Some? {
      assert Exposes(d, name, named.value);
    }
  }

  lemma EffectiveTold(cat: Catalog, d: Definition, provided: Params, path: Path, f: Diagnostic)
    ensures f in EffectiveFaults(cat, EffectiveParams(d, provided), path, d.graph.nodes)
      <==> f == Diagnostic(InvalidParameters, path + [f.subject], f.subject) && RejectsEffective(cat, d, provided, f.subject)
  {
    hide EffectiveParams;
    var effective, nodes := EffectiveParams(d, provided), d.graph.nodes;
    var rs := seq(|nodes|, i requires 0 <= i < |nodes| => EffectiveFault(cat, effective, path, nodes[i]));
    forall n | n in nodes && n.Registered? ensures cat.Resolve(n.typeId, n.version).Resolved? <==> (n.typeId, n.version) in cat.byKey {
      ResolveIs(cat, n.typeId, n.version);
    }
    if n :| n in nodes && f in EffectiveFault(cat, effective, path, n) {
      var i :| 0 <= i < |nodes| && nodes[i] == n;
      assert f in rs[i];
    }
    if RejectsEffective(cat, d, provided, f.subject) && f == Diagnostic(InvalidParameters, path + [f.subject], f.subject) {
      var n :| n in nodes && n.id == f.subject && n.Registered? && (n.typeId, n.version) in cat.byKey
        && !cat.byKey[(n.typeId, n.version)].paramsOk(effective[n.id]);
      assert f in EffectiveFault(cat, effective, path, n);
    }
  }

  /** The component nested at a relative path: its definition's key, and the parameters provided to it. */
  ghost predicate NestedAt(fetched: Definitions, key: ComponentKey, provided: Params, rel: Path, k: ComponentKey, inner: Params)
    requires SoundClosure(fetched) && key in fetched
    decreases |rel|
  {
    if rel == [] then k == key && inner == provided
    else rel[0] in ComponentNodes(fetched[key].graph.nodes)
         && NestedAt(fetched, KeyOfNested(fetched, key, rel[0]), EffectiveParams(fetched[key], provided)[rel[0]], rel[1..], k, inner)
  }

  /** Some component of the tree has the fault, reported at its own path. */
  ghost predicate TreeFault(cat: Catalog, fetched: Definitions, key: ComponentKey, provided: Params, path: Path, f: Diagnostic)
    requires SoundClosure(fetched) && key in fetched
  {
    exists rel: Path, k, inner :: NestedAt(fetched, key, provided, rel, k, inner) && k in fetched && ParamFaultOf(cat, fetched[k], inner, path + rel, f)
  }

  ghost predicate ChildFault(cat: Catalog, fetched: Definitions, key: ComponentKey, provided: Params, path: Path, id: NodeId, f: Diagnostic)
    requires SoundClosure(fetched) && key in fetched
  {
    id in ComponentNodes(fetched[key].graph.nodes)
    && TreeFault(cat, fetched, KeyOfNested(fetched, key, id), EffectiveParams(fetched[key], provided)[id], path + [id], f)
  }

  lemma TreeFaultSplit(cat: Catalog, fetched: Definitions, key: ComponentKey, provided: Params, path: Path, f: Diagnostic)
    requires SoundClosure(fetched) && key in fetched
    ensures TreeFault(cat, fetched, key, provided, path, f) <==>
      ParamFaultOf(cat, fetched[key], provided, path, f)
      || exists id :: ChildFault(cat, fetched, key, provided, path, id, f)
  {
    hide SoundClosure, EffectiveParams, Height, ParamFaultOf, NodeOf, NodeIds;
    if TreeFault(cat, fetched, key, provided, path, f) {
      var rel: Path, k, inner :| NestedAt(fetched, key, provided, rel, k, inner) && k in fetched && ParamFaultOf(cat, fetched[k], inner, path + rel, f);
      if rel == [] {
        assert path + rel == path;
      } else {
        assert path + rel == (path + [rel[0]]) + rel[1..];
        assert ChildFault(cat, fetched, key, provided, path, rel[0], f);
      }
    }
    if ParamFaultOf(cat, fetched[key], provided, path, f) {
      assert path + [] == path;
      assert NestedAt(fetched, key, provided, [], key, provided);
    }
    if id :| ChildFault(cat, fetched, key, provided, path, id, f) {
      var rel: Path, k, inner :| NestedAt(fetched, KeyOfNested(fetched, key, id), EffectiveParams(fetched[key], provided)[id], rel, k, inner) && k in fetched
        && ParamFaultOf(cat, fetched[k], inner, path + [id] + rel, f);
      assert ([id] + rel)[1..] == rel && path + ([id] + rel) == path + [id] + rel;
      assert NestedAt(fetched, key, provided, [id] + rel, k, inner);
    }
  }

  lemma LocalTold(cat: Catalog, d: Definition, provided: Params, path: Path, f: Diagnostic)
    ensures f in ProvidedFaults(d, provided, path) || f in EffectiveFaults(cat, EffectiveParams(d, provided), path, d.graph.nodes)
      <==> ParamFaultOf(cat, d, provided, path, f)
  {
    hide ProvidedFaults, EffectiveFaults, ProvidedFaultOf, RejectsEffective, EffectiveParams;
    ProvidedTold(d, provided, path, f);
    EffectiveTold(cat, d, provided, path, f);
  }

  ghost predicate ChildFound(cat: Catalog, fetched: Definitions, key: ComponentKey, provided: Params, path: Path, id: NodeId, f: Diagnostic)
    requires SoundClosure(fetched) && key in fetched
  {
    id in ComponentNodes(fetched[key].graph.nodes)
    && f in InstanceFaults(cat, fetched, KeyOfNested(fetched, key, id), EffectiveParams(fetched[key], provided)[id], path + [id])
  }

  lemma InstanceSplit(cat: Catalog, fetched: Definitions, key: ComponentKey, provided: Params, path: Path, f: Diagnostic)
    requires SoundClosure(fetched) && key in fetched
    ensures f in InstanceFaults(cat, fetched, key, provided, path) <==>
      ParamFaultOf(cat, fetched[key], provided, path, f) || exists id :: ChildFound(cat, fetched, key, provided, path, id, f)
  {
    hide SoundClosure, EffectiveParams, Height, ProvidedFaults, EffectiveFaults, ParamFaultOf, NodeOf, NodeIds, ComponentNodes;
    var d := fetched[key];
    LocalTold(cat, d, provided, path, f);
    if f in InstanceFaults(cat, fetched, key, provided, path) && !ParamFaultOf(cat, d, provided, path, f) {
      var id :| id in ComponentNodes(d.graph.nodes)
        && f in InstanceFaults(cat, fetched, KeyOfNested(fetched, key, id), EffectiveParams(d, provided)[id], path + [id]);
      assert ChildFound(cat, fetched, key, provided, path, id, f);
    }
    if id :| ChildFound(cat, fetched, key, provided, path, id, f) {
      assert f in InstanceFaults(cat, fetched, KeyOfNested(fetched, key, id), EffectiveParams(d, provided)[id], path + [id]);
    }
  }

  /** The findings about the parameters of a component name the faults of the components in its tree, each at its own path. */
  lemma {:induction false} InstanceFindings(cat: Catalog, fetched: Definitions, key: ComponentKey, provided: Params, path: Path, f: Diagnostic)
    requires SoundClosure(fetched) && key in fetched
    ensures f in InstanceFaults(cat, fetched, key, provided, path) <==> TreeFault(cat, fetched, key, provided, path, f)
    decreases Height(fetched, key)
  {
    hide SoundClosure, EffectiveParams, Height, TreeFault, InstanceFaults, ParamFaultOf, NodeOf, NodeIds;
    InstanceSplit(cat, fetched, key, provided, path, f);
    TreeFaultSplit(cat, fetched, key, provided, path, f);
    forall id ensures ChildFound(cat, fetched, key, provided, path, id, f) <==> ChildFault(cat, fetched, key, provided, path, id, f) {
      if id in ComponentNodes(fetched[key].graph.nodes) {
        InstanceFindings(cat, fetched, KeyOfNested(fetched, key, id), EffectiveParams(fetched[key], provided)[id], path + [id], f);
      }
    }
  }

  /* ---- resolution ---- */

  /** A component node of the document has a faulty parameter somewhere in its tree. */
  ghost predicate DocumentParamFault(cat: Catalog, doc: Document, fetched: Definitions, f: Diagnostic)
    requires Resolvable(doc) && SoundClosure(fetched) && KeysOf(doc.refs) <= fetched.Keys
  {
    exists id :: id in ComponentNodes(doc.graph.nodes) && TreeFault(cat, fetched, RootKey(doc, id), NodeOf(doc.graph.nodes, id).params, [id], f)
  }

  lemma InstancesTold(cat: Catalog, doc: Document, fetched: Definitions, f: Diagnostic)
    requires Resolvable(doc) && SoundClosure(fetched) && KeysOf(doc.refs) <= fetched.Keys
    ensures f in Instances(cat, doc, fetched).faults <==> DocumentParamFault(cat, doc, fetched, f)
  {
    hide SoundClosure, Resolvable, TreeFault, InstanceFaults, ComponentNodes, NodeOf, NodeIds, KeysOf;
    forall id | id in ComponentNodes(doc.graph.nodes)
      ensures f in InstanceFaults(cat, fetched, RootKey(doc, id), NodeOf(doc.graph.nodes, id).params, [id])
        <==> TreeFault(cat, fetched, RootKey(doc, id), NodeOf(doc.graph.nodes, id).params, [id], f)
    {
      InstanceFindings(cat, fetched, RootKey(doc, id), NodeOf(doc.graph.nodes, id).params, [id], f);
    }
  }

  /** The pinned closure is whole, acyclic and well formed. */
  ghost predicate ClosureSound(store: Definitions, roots: set<ComponentKey>) {
    forall code, x :: !ClosureFault(store, roots, code, x)
  }

  /** And every definition of it checks against the registry. */
  ghost predicate RegistrySound(cat: Catalog, store: Definitions, roots: set<ComponentKey>) {
    forall code, x :: !RegistryFault(cat, store, roots, code, x)
  }

  /** What resolution reports: faults of the closure; without any, those of its definitions against the registry; without any,
      those of the parameters of the component nodes. */
  lemma ResolutionFindings(cat: Catalog, doc: Document, store: Definitions, f: Diagnostic)
    requires KeyedByIdentity(store) && Resolvable(doc)
    ensures var roots := KeysOf(doc.refs);
      var found := f in Resolve(cat, doc, store).faults;
      if !ClosureSound(store, roots) then found <==> f.path == [] && ClosureFault(store, roots, f.code, f.subject)
      else if !RegistrySound(cat, store, roots) then found <==> f.path == [] && RegistryFault(cat, store, roots, f.code, f.subject)
      else SoundClosure(ClosureOf(store, roots)) && roots <= ClosureOf(store, roots).Keys
           && (found <==> DocumentParamFault(cat, doc, ClosureOf(store, roots), f))
  {
    hide ClosureFault, RegistryFault, Resolvable, KeyedByIdentity, SoundClosure, Instances, ClosureOf, AbsentOf, Listed, KeysOf,
      AbsentFaults, SetFaults, InvalidFaults, AllSemanticFaults, DocumentParamFault, AllClean;
    var roots := KeysOf(doc.refs);
    GateEmptyIff(store, roots);
    RegistryEmptyIff(cat, store, roots);
    GateTold(store, roots, f);
    RegistryTold(cat, store, roots, f);
    var fetched, missing := ClosureOf(store, roots), AbsentOf(store, roots);
    if ClosureSound(store, roots) && RegistrySound(cat, store, roots) {
      GatesAreSound(cat, store, roots, fetched, missing);
      InstancesTold(cat, doc, fetched, f);
    }
  }

  lemma GateEmptyIff(store: Definitions, roots: set<ComponentKey>)
    ensures Gate(store, roots) == {} <==> ClosureSound(store, roots)
  {
    hide Gate, ClosureFault;
    if f :| f in Gate(store, roots) {
      GateTold(store, roots, f);
      assert ClosureFault(store, roots, f.code, f.subject);
    }
    if code, x :| ClosureFault(store, roots, code, x) {
      GateTold(store, roots, Fault(code, x));
    }
  }

  lemma RegistryEmptyIff(cat: Catalog, store: Definitions, roots: set<ComponentKey>)
    ensures AllSemanticFaults(cat, ClosureOf(store, roots), Listed(ClosureOf(store, roots))) == {} <==> RegistrySound(cat, store, roots)
  {
    hide AllSemanticFaults, RegistryFault, Listed, ClosureOf;
    if f :| f in AllSemanticFaults(cat, ClosureOf(store, roots), Listed(ClosureOf(store, roots))) {
      RegistryTold(cat, store, roots, f);
      assert RegistryFault(cat, store, roots, f.code, f.subject);
    }
    if code, x :| RegistryFault(cat, store, roots, code, x) {
      RegistryTold(cat, store, roots, Fault(code, x));
    }
  }

  /* ---- the top level ---- */

  /** The document's graph with its instances in place of the component nodes. */
  function TopScope(cat: Catalog, g: Graph, instances: map<NodeId, Instance>): Scope {
    Scope(cat, DefinitionsOf(instances), g.nodes)
  }

  /** A fault of an edge at a component node, reported at that node. */
  ghost predicate TopEdgeFaultOf(s: Scope, components: set<NodeId>, e: Edge, f: Diagnostic) {
    match f.code
    case UnknownOutputPort => f.path == [e.src] && e.src in components && EdgeFaultOf(s, e, f.code, f.subject)
    case UnknownInputPort => f.path == [e.dst] && e.dst in components && EdgeFaultOf(s, e, f.code, f.subject)
    case IncompatiblePortTypes => f.path == [e.dst] && (e.src in components || e.dst in components) && EdgeFaultOf(s, e, f.code, f.subject)
    case _ => false
  }

  ghost predicate TopEdgeFaultIn(s: Scope, components: set<NodeId>, edges: seq<Edge>, f: Diagnostic) {
    exists e :: e in edges && TopEdgeFaultOf(s, components, e, f)
  }

  /** An input port of the node fed by two edges. */
  ghost predicate TopAmbiguous(edges: seq<Edge>, f: Diagnostic) {
    f.code == AmbiguousInput && exists id :: f.path == [id] && FedByTwoEdges(edges, id, f.subject)
  }

  /** An exposed input of an instance that no edge feeds. */
  ghost predicate TopUnfedIn(instances: map<NodeId, Instance>, edges: seq<Edge>, f: Diagnostic) {
    f.code == RequiredInputUnconnected && exists id :: f.path == [id] && UnfedAt(instances, edges, id, f.subject)
  }

  ghost predicate UnfedAt(instances: map<NodeId, Instance>, edges: seq<Edge>, id: NodeId, name: PortName) {
    id in instances && !EdgeFeeds(edges, id, name) && exists e :: e in instances[id].definition.exposedInputs && e.name == name
  }

  lemma TopEdgeTold(s: Scope, components: set<NodeId>, e: Edge, f: Diagnostic)
    ensures f in TopEdgeFault(TablesOf(s), components, e) <==> TopEdgeFaultOf(s, components, e, f)
  {
    hide TablesOf, Scope.Known, Scope.Offers, Scope.Takes, Clash, IsCompatible;
    EdgeTold(s, e);
  }

  lemma TopEdgesTold(s: Scope, components: set<NodeId>, edges: seq<Edge>, f: Diagnostic)
    ensures f in TopEdgeFaults(TablesOf(s), components, edges) <==> TopEdgeFaultIn(s, components, edges, f)
  {
    hide TablesOf, TopEdgeFault, TopEdgeFaultOf;
    var rs := seq(|edges|, i requires 0 <= i < |edges| => TopEdgeFault(TablesOf(s), components, edges[i]));
    forall e ensures f in TopEdgeFault(TablesOf(s), components, e) <==> TopEdgeFaultOf(s, components, e, f) {
      TopEdgeTold(s, components, e, f);
    }
    if e :| e in edges && f in TopEdgeFault(TablesOf(s), components, e) {
      var i :| 0 <= i < |edges| && edges[i] == e;
      assert f in rs[i];
    }
  }

  lemma TopUnfedOne(instances: map<NodeId, Instance>, edges: seq<Edge>, id: NodeId, f: Diagnostic)
    requires id in instances
    ensures f in TopUnfed(instances, Targets(edges), id) <==> f == Diagnostic(RequiredInputUnconnected, [id], f.subject) && UnfedAt(instances, edges, id, f.subject)
  {
    hide Targets, EdgeFeeds;
    var ports := instances[id].definition.exposedInputs;
    TargetsAre(edges, id, f.subject);
    if e :| e in ports && e.name == f.subject {
      var k :| 0 <= k < |ports| && ports[k] == e;
      assert ports[k].name == f.subject;
    }
  }

  lemma TopUnfedTold(instances: map<NodeId, Instance>, edges: seq<Edge>, f: Diagnostic)
    ensures f in TopUnfedFaults(instances, Targets(edges)) <==> TopUnfedIn(instances, edges, f)
  {
    hide Targets, TopUnfed, EdgeFeeds;
    forall id | id in instances
      ensures f in TopUnfed(instances, Targets(edges), id) <==> f == Diagnostic(RequiredInputUnconnected, [id], f.subject) && UnfedAt(instances, edges, id, f.subject)
    {
      TopUnfedOne(instances, edges, id, f);
    }
  }

  lemma AmbiguousTold(edges: seq<Edge>, f: Diagnostic)
    ensures f in (set s | s in DuplicateTargets(edges) :: Diagnostic(AmbiguousInput, [s.0], s.1)) <==> TopAmbiguous(edges, f)
  {
    hide DuplicateTargets, FedByTwoEdges;
    forall id, name ensures (id, name) in DuplicateTargets(edges) <==> FedByTwoEdges(edges, id, name) {
      DuplicateTargetsAre(edges, id, name);
    }
    if id :| f.path == [id] && FedByTwoEdges(edges, id, f.subject) {
      assert (id, f.subject) in DuplicateTargets(edges);
    }
  }

  ghost predicate TopFault(cat: Catalog, g: Graph, instances: map<NodeId, Instance>, f: Diagnostic) {
    TopAmbiguous(g.edges, f) || TopEdgeFaultIn(TopScope(cat, g, instances), instances.Keys, g.edges, f) || TopUnfedIn(instances, g.edges, f)
  }

  lemma ToplevelFindings(cat: Catalog, g: Graph, instances: map<NodeId, Instance>, f: Diagnostic)
    ensures f in ToplevelFaults(cat, g, instances) <==> TopFault(cat, g, instances, f)
  {
    hide Tables, DefinitionsOf, TopEdgeFaults, TopUnfedFaults, DuplicateTargets, Targets, TopAmbiguous, TopEdgeFaultIn, TopUnfedIn;
    AmbiguousTold(g.edges, f);
    TopEdgesTold(TopScope(cat, g, instances), instances.Keys, g.edges, f);
    TopUnfedTold(instances, g.edges, f);
  }

  /* ---- the terminal node ---- */

  ghost predicate TerminalAt(nodes: seq<Node>, i: nat) {
    i < |nodes| && nodes[i].Registered? && nodes[i].typeId == TERMINAL_TYPE_ID
  }

  /** No terminal node, or more than one. */
  ghost predicate TerminalFault(nodes: seq<Node>, f: Diagnostic) {
    f.path == [] && f.subject == TERMINAL_TYPE_ID
    && match f.code
       case MissingTerminalNode => forall i: nat :: !TerminalAt(nodes, i)
       case MultipleTerminalNodes => exists i: nat, j: nat :: i < j && TerminalAt(nodes, i) && TerminalAt(nodes, j)
       case _ => false
  }

  lemma {:induction false} TerminalsAre(nodes: seq<Node>)
    ensures |TerminalNodes(nodes)| == 0 <==> forall i: nat :: !TerminalAt(nodes, i)
    ensures |TerminalNodes(nodes)| > 1 <==> exists i: nat, j: nat :: i < j && TerminalAt(nodes, i) && TerminalAt(nodes, j)
  {
    if nodes != [] {
      var n := |nodes| - 1;
      var front := nodes[..n];
      TerminalsAre(front);
      assert forall i: nat :: i < n ==> (TerminalAt(front, i) <==> TerminalAt(nodes, i));
      if TerminalAt(nodes, n) && |TerminalNodes(front)| > 0 {
        var i: nat :| TerminalAt(front, i);
        assert TerminalAt(nodes, i) && i < n;
      }
      if i: nat, j: nat :| i < j && TerminalAt(front, i) && TerminalAt(front, j) {
        assert TerminalAt(nodes, i) && TerminalAt(nodes, j);
      }
      if i: nat, j: nat :| i < j && TerminalAt(nodes, i) && TerminalAt(nodes, j) {
        assert TerminalAt(front, i);
        assert j < n ==> TerminalAt(front, j);
      }
    }
  }

  lemma TerminalFindings(nodes: seq<Node>, f: Diagnostic)
    ensures f in TerminalFaults(nodes) <==> TerminalFault(nodes, f)
  {
    hide TerminalNodes, TerminalAt;
    TerminalsAre(nodes);
  }

  /* ---- the layers ---- */

  ghost predicate WellFormed(doc: Document) {
    forall code, x :: !DocumentFault(doc, code, x)
  }

  ghost predicate RegisteredSound(cat: Catalog, g: Graph) {
    forall code, x :: !SemanticFault(cat, g, code, x)
  }

  lemma WellFormedIff(doc: Document)
    ensures DocumentFaults(doc) == {} <==> WellFormed(doc)
  {
    hide DocumentFaults, DocumentFault;
    if f :| f in DocumentFaults(doc) {
      DocumentFindings(doc, f);
      assert DocumentFault(doc, f.code, f.subject);
    }
    if code, x :| DocumentFault(doc, code, x) {
      DocumentFindings(doc, Fault(code, x));
    }
  }

  lemma RegisteredSoundIff(cat: Catalog, g: Graph)
    ensures SemanticsFaults(cat, g) == {} <==> RegisteredSound(cat, g)
  {
    hide SemanticsFaults, SemanticFault;
    if f :| f in SemanticsFaults(cat, g) {
      SemanticFindings(cat, g, f);
      assert SemanticFault(cat, g, f.code, f.subject);
    }
    if code, x :| SemanticFault(cat, g, code, x) {
      SemanticFindings(cat, g, Fault(code, x));
    }
  }

  /** What pre-flight reports: the structural faults of the document; without any, the faults of its registered nodes and of
      its components; without any of these either, the faults of its wiring at component nodes and of its terminal. */
  lemma PreflightFindings(cat: Catalog, doc: Document, store: Definitions, f: Diagnostic)
    requires KeyedByIdentity(store)
    ensures var found := f in PreflightOf(cat, doc, store).Faults();
      if !WellFormed(doc) then found <==> f.path == [] && DocumentFault(doc, f.code, f.subject)
      else
        Resolvable(doc)
        && var resolution := Resolve(cat, doc, store);
        if !RegisteredSound(cat, doc.graph) || resolution.faults != {}
        then found <==> (f.path == [] && SemanticFault(cat, doc.graph, f.code, f.subject)) || f in resolution.faults
        else found <==> TopFault(cat, doc.graph, resolution.instances, f) || TerminalFault(doc.graph.nodes, f)
  {
    hide DocumentFaults, DocumentFault, SemanticsFaults, SemanticFault, ToplevelFaults, TerminalFaults, TopFault, TerminalFault, Resolve, Resolvable, KeyedByIdentity;
    WellFormedIff(doc);
    DocumentFindings(doc, f);
    RegisteredSoundIff(cat, doc.graph);
    SemanticFindings(cat, doc.graph, f);
    TerminalFindings(doc.graph.nodes, f);
    if WellFormed(doc) {
      CleanDocument(doc);
      ToplevelFindings(cat, doc.graph, Resolve(cat, doc, store).instances, f);
    }
  }

  /* ---- the entry of an evaluation ---- */

  /** An evaluation is refused for the findings of pre-flight, and when no session of the calendar has closed by its instant. */
  lemma EntryFindings(cat: Catalog, doc: Document, store: Definitions, d: DataSet, t: Instant, memo: Option<Memo>, f: Diagnostic)
    requires KeyedByIdentity(store)
    ensures f in EntryFaults(cat, doc, store, Context(AsOf(d, t), memo)) <==>
      f in PreflightOf(cat, doc, store).Faults() || (f == Fault(NoVisibleSession, 0) && forall s :: s in d.calendar ==> t < s.closeAt)
  {
    hide PreflightOf, KeyedByIdentity, ClosedBy;
    var sessions := ClosedBy(d.calendar, t);
    forall day ensures day in sessions <==> exists s :: s in d.calendar && s.date == day && s.closeAt <= t {
      SessionsAre(d.calendar, t, day);
    }
    if sessions != [] {
      assert sessions[0] in sessions;
    }
    if s :| s in d.calendar && s.closeAt <= t {
      assert s.date in sessions;
    }
  }
}
