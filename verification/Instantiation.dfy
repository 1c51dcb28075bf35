/** Building the instance tree: `_instantiate` of quantize/components/resolve.py. */
module Instantiation {
  import opened Closure
  import opened Collections
  import opened Cycles
  import opened DefinitionChecks
  import opened Diagnostics
  import opened Documents
  import opened Evaluator
  import opened Kahn
  import opened Planning
  import opened Validation

  /* ---- parameters ---- */

  /** The exposed parameter with a name: the last one. */
  function ParamNamed(params: seq<ExposedParam>, name: ParamName): (r: Option<ExposedParam>)
    ensures r.Some? ==> r.value.name == name
  {
    if params == [] then None
    else if params[|params| - 1].name == name then Some(params[|params| - 1])
    else ParamNamed(params[..|params| - 1], name)
  }

  /** A well-formed schema that rejects the value. */
  predicate Rejects(p: ExposedParam, value: Json) {
    p.schema.wellFormed && !p.schema.accepts(value)
  }

  function AuthoredParams(nodes: seq<Node>): map<NodeId, Params> {
    map id | id in NodeIds(nodes) :: NodeOf(nodes, id).params
  }

  /** One override, on a copy of the internal parameters. */
  function Override(d: Definition, params: map<NodeId, Params>, name: ParamName, value: Json): (r: map<NodeId, Params>)
    ensures r.Keys == params.Keys
  {
    match ParamNamed(d.exposedParams, name)
    case None => params
    case Some(p) => if Rejects(p, value) || p.node !in params then params else params[p.node := params[p.node][p.param := value]]
  }

  function Overridden(d: Definition, params: map<NodeId, Params>, provided: Params, names: seq<ParamName>): (r: map<NodeId, Params>)
    requires forall n :: n in names ==> n in provided
    ensures r.Keys == params.Keys
  {
    if names == [] then params
    else
      var name := names[|names| - 1];
      Override(d, Overridden(d, params, provided, names[..|names| - 1]), name, provided[name])
  }

  /** Authored internal parameters with the accepted overrides applied in name order. */
  function EffectiveParams(d: Definition, provided: Params): (r: map<NodeId, Params>)
    ensures r.Keys == NodeIds(d.graph.nodes)
  {
    Overridden(d, AuthoredParams(d.graph.nodes), provided, Sorted(provided.Keys))
  }

  function ProvidedFault(d: Definition, path: Path, name: ParamName, value: Json): Findings {
    match ParamNamed(d.exposedParams, name)
    case None => {Diagnostic(UnknownComponentParam, path, name)}
    case Some(p) => if Rejects(p, value) then {Diagnostic(InvalidComponentParam, path, name)} else {}
  }

  function ProvidedFaults(d: Definition, provided: Params, path: Path): Findings {
    var names := Sorted(provided.Keys);
    Union(seq(|names|, i requires 0 <= i < |names| => ProvidedFault(d, path, names[i], provided[names[i]])))
  }

  /** A registered node whose effective parameters its type rejects. */
  function EffectiveFault(cat: Catalog, effective: map<NodeId, Params>, path: Path, n: Node): Findings
    requires n.id in effective
  {
    if !n.Registered? then {}
    else
      match cat.Resolve(n.typeId, n.version)
      case Resolved(i) => if i.paramsOk(effective[n.id]) then {} else {Diagnostic(InvalidParameters, path + [n.id], n.id)}
      case _ => {}
  }

  function EffectiveFaults(cat: Catalog, effective: map<NodeId, Params>, path: Path, nodes: seq<Node>): Findings
    requires effective.Keys == NodeIds(nodes)
  {
    Union(seq(|nodes|, i requires 0 <= i < |nodes| => EffectiveFault(cat, effective, path, nodes[i])))
  }

  lemma NoOverrides(d: Definition, params: map<NodeId, Params>, provided: Params, names: seq<ParamName>)
    requires forall n :: n in names ==> n in provided
    ensures Overridden(d, params, provided, names[..0]) == params
  {
  }

  lemma OverriddenSnoc(d: Definition, params: map<NodeId, Params>, provided: Params, names: seq<ParamName>, i: nat)
    requires i < |names| && forall n :: n in names ==> n in provided
    ensures names[i] in provided
    ensures Overridden(d, params, provided, names[..i + 1]) ==
            Override(d, Overridden(d, params, provided, names[..i]), names[i], provided[names[i]])
  {
    hide Override;
    assert names[..i + 1][..i] == names[..i];
    var name := names[i];
    assert name in names;
  }

  /** One override: unknown names and rejected values are reported and change nothing. */
  method ApplyParam(d: Definition, effective: map<NodeId, Params>, path: Path, name: ParamName, value: Json)
    returns (after: map<NodeId, Params>, found: Findings)
    ensures after == Override(d, effective, name, value) && found == ProvidedFault(d, path, name, value)
  {
    hide ParamNamed, Rejects;
    after, found := effective, {};
    var named := ParamNamed(d.exposedParams, name);
    if named.None? {
      found := {Diagnostic(UnknownComponentParam, path, name)};
    } else if Rejects(named.value, value) {
      found := {Diagnostic(InvalidComponentParam, path, name)};
    } else if named.value.node in effective {
      after := effective[named.value.node := effective[named.value.node][named.value.param := value]];
    }
  }

  /** Applies the overrides and collects what is wrong with them. */
  method ApplyParams(d: Definition, provided: Params, path: Path) returns (effective: map<NodeId, Params>, faults: Findings)
    ensures effective == EffectiveParams(d, provided) && faults == ProvidedFaults(d, provided, path)
  {
    hide Union, Override, ProvidedFault, AuthoredParams, Overridden;
    var names := Sorted(provided.Keys);
    ghost var rs := seq(|names|, i requires 0 <= i < |names| => ProvidedFault(d, path, names[i], provided[names[i]]));
    effective, faults := AuthoredParams(d.graph.nodes), {};
    EmptyPrefix(rs, []);
    NoOverrides(d, effective, provided, names);
    for i := 0 to |names|
      invariant effective == Overridden(d, AuthoredParams(d.graph.nodes), provided, names[..i])
      invariant faults == Union(rs[..i])
    {
      UnionSnoc(rs, i);
      OverriddenSnoc(d, AuthoredParams(d.graph.nodes), provided, names, i);
      var name := names[i];
      assert name in names;
      var found: Findings;
      effective, found := ApplyParam(d, effective, path, name, provided[name]);
      faults := faults + found;
    }
    WholePrefix(rs);
    assert names[..|names|] == names;
  }

  method CheckEffectiveParams(cat: Catalog, effective: map<NodeId, Params>, path: Path, nodes: seq<Node>) returns (faults: Findings)
    requires effective.Keys == NodeIds(nodes)
    ensures faults == EffectiveFaults(cat, effective, path, nodes)
  {
    hide Union;
    ghost var rs := seq(|nodes|, i requires 0 <= i < |nodes| => EffectiveFault(cat, effective, path, nodes[i]));
    faults := {};
    EmptyPrefix(rs, []);
    for i := 0 to |nodes|
      invariant faults == Union(rs[..i])
    {
      UnionSnoc(rs, i);
      faults := faults + EffectiveFault(cat, effective, path, nodes[i]);
    }
    WholePrefix(rs);
  }

  /* ---- the closure instantiation runs over ---- */

  function PinPairs(fetched: Definitions): (p: Pairs)
    ensures forall a, b :: (a, b) in p <==> Pins(fetched, a, b)
  {
    set a, b | a in fetched && b in KeysOf(fetched[a].refs) :: (a, b)
  }

  /** What the definition-level gates establish before anything is instantiated. */
  ghost predicate SoundClosure(fetched: Definitions) {
    && KeyedByIdentity(fetched)
    && (forall k :: k in fetched ==> GraphOk(fetched[k].graph, RefIds(fetched[k].refs)))
    && Within(PinPairs(fetched), fetched.Keys)
    && Acyclic(PinPairs(fetched))
  }

  /** How far a definition is from the leaves of the pin graph. */
  ghost function Height(fetched: Definitions, key: ComponentKey): nat {
    var plan := PlanFrom(fetched.Keys, PinPairs(fetched));
    if key in plan then |plan| - FirstIndex(plan, key) else 0
  }

  /** Pins lead downwards: recursion along them ends. */
  lemma PinsDescend(fetched: Definitions, a: ComponentKey, b: ComponentKey)
    requires SoundClosure(fetched) && Pins(fetched, a, b)
    ensures b in fetched && Height(fetched, b) < Height(fetched, a)
  {
    hide GraphOk, PlanFrom, Acyclic;
    var pairs := PinPairs(fetched);
    AcyclicPlanIsTopological(fetched.Keys, pairs);
    var plan := PlanFrom(fetched.Keys, pairs);
    assert (a, b) in pairs;
    assert a in plan && b in plan;
    assert Feeds(pairs, plan[FirstIndex(plan, a)], plan[FirstIndex(plan, b)]);
  }

  ghost function KeyOfNested(fetched: Definitions, key: ComponentKey, id: NodeId): (r: ComponentKey)
    requires SoundClosure(fetched) && key in fetched && id in ComponentNodes(fetched[key].graph.nodes)
    ensures r in fetched && Height(fetched, r) < Height(fetched, key)
    ensures NestedKey(fetched[key].refs, NodeOf(fetched[key].graph.nodes, id)) == Some(r)
  {
    var n := NodeOf(fetched[key].graph.nodes, id);
    DeclaredKey(fetched[key].refs, n);
    var r := RefKey(fetched[key].refs, n.ref).value;
    PinsDescend(fetched, key, r);
    r
  }

  /** `_instantiate`: the resolved instance of a definition under the parameters its node provides. */
  ghost function Instantiate(fetched: Definitions, key: ComponentKey, provided: Params): (r: Instance)
    requires SoundClosure(fetched) && key in fetched
    ensures r.definition == fetched[key]
    decreases Height(fetched, key)
  {
    var d := fetched[key];
    var effective := EffectiveParams(d, provided);
    Instance(d, effective, map id | id in ComponentNodes(d.graph.nodes) :: Instantiate(fetched, KeyOfNested(fetched, key, id), effective[id]))
  }

  /** Everything wrong with the parameters of the instance and of those nested in it. */
  ghost function InstanceFaults(cat: Catalog, fetched: Definitions, key: ComponentKey, provided: Params, path: Path): Findings
    requires SoundClosure(fetched) && key in fetched
    decreases Height(fetched, key)
  {
    var d := fetched[key];
    var effective := EffectiveParams(d, provided);
    ProvidedFaults(d, provided, path) + EffectiveFaults(cat, effective, path, d.graph.nodes)
    + set id, f | id in ComponentNodes(d.graph.nodes) && f in InstanceFaults(cat, fetched, KeyOfNested(fetched, key, id), effective[id], path + [id]) :: f
  }

  /** The children built from the first i nodes. */
  ghost predicate ChildrenUpTo(fetched: Definitions, key: ComponentKey, effective: map<NodeId, Params>, i: nat, children: map<NodeId, Instance>)
    requires SoundClosure(fetched) && key in fetched && effective.Keys == NodeIds(fetched[key].graph.nodes) && i <= |fetched[key].graph.nodes|
  {
    forall id :: Get(children, id) ==
      if id in ComponentNodes(fetched[key].graph.nodes) && id in NodeIds(fetched[key].graph.nodes[..i])
      then Some(Instantiate(fetched, KeyOfNested(fetched, key, id), effective[id])) else None
  }

  ghost predicate FaultsUpTo(cat: Catalog, fetched: Definitions, key: ComponentKey, effective: map<NodeId, Params>, path: Path, i: nat, faults: Findings)
    requires SoundClosure(fetched) && key in fetched && effective.Keys == NodeIds(fetched[key].graph.nodes) && i <= |fetched[key].graph.nodes|
  {
    forall f :: f in faults <==> FoundAt(cat, fetched, key, effective, path, i, f)
  }

  ghost predicate FoundAt(cat: Catalog, fetched: Definitions, key: ComponentKey, effective: map<NodeId, Params>, path: Path, i: nat, f: Diagnostic)
    requires SoundClosure(fetched) && key in fetched && effective.Keys == NodeIds(fetched[key].graph.nodes) && i <= |fetched[key].graph.nodes|
  {
    exists id :: FoundIn(cat, fetched, key, effective, path, i, id, f)
  }

  ghost predicate FoundIn(cat: Catalog, fetched: Definitions, key: ComponentKey, effective: map<NodeId, Params>, path: Path, i: nat, id: NodeId, f: Diagnostic)
    requires SoundClosure(fetched) && key in fetched && effective.Keys == NodeIds(fetched[key].graph.nodes) && i <= |fetched[key].graph.nodes|
  {
    id in ComponentNodes(fetched[key].graph.nodes) && id in NodeIds(fetched[key].graph.nodes[..i])
    && f in InstanceFaults(cat, fetched, KeyOfNested(fetched, key, id), effective[id], path + [id])
  }

  /** The node i is new, and it is the one its id names. */
  lemma NextNode(nodes: seq<Node>, i: nat)
    requires UniqueIds(nodes) && i < |nodes|
    ensures NodeIds(nodes[..i + 1]) == NodeIds(nodes[..i]) + {nodes[i].id}
    ensures nodes[i].id in ComponentNodes(nodes) <==> nodes[i].Component?
  {
    KnownSnoc(nodes, i);
    NodeOfUnique(nodes, nodes[i]);
    var n := nodes[i];
    assert n in nodes;
  }

  lemma ChildrenStep(fetched: Definitions, key: ComponentKey, effective: map<NodeId, Params>, i: nat, children: map<NodeId, Instance>)
    requires SoundClosure(fetched) && key in fetched && effective.Keys == NodeIds(fetched[key].graph.nodes) && i < |fetched[key].graph.nodes|
    requires ChildrenUpTo(fetched, key, effective, i, children)
    ensures var id := fetched[key].graph.nodes[i].id;
      if id in ComponentNodes(fetched[key].graph.nodes)
      then ChildrenUpTo(fetched, key, effective, i + 1, children[id := Instantiate(fetched, KeyOfNested(fetched, key, id), effective[id])])
      else ChildrenUpTo(fetched, key, effective, i + 1, children)
  {
    hide Instantiate, KeyOfNested, SoundClosure, NodeIds, ComponentNodes, UniqueIds, ChildrenUpTo;
    SoundUnique(fetched, key);
    NextNode(fetched[key].graph.nodes, i);
    var id := fetched[key].graph.nodes[i].id;
    if id in ComponentNodes(fetched[key].graph.nodes) {
      ChildAdded(fetched, key, effective, i, children);
    } else {
      ChildSkipped(fetched, key, effective, i, children);
    }
  }

  lemma ChildAdded(fetched: Definitions, key: ComponentKey, effective: map<NodeId, Params>, i: nat, children: map<NodeId, Instance>)
    requires SoundClosure(fetched) && key in fetched && effective.Keys == NodeIds(fetched[key].graph.nodes) && i < |fetched[key].graph.nodes|
    requires ChildrenUpTo(fetched, key, effective, i, children)
    requires fetched[key].graph.nodes[i].id in ComponentNodes(fetched[key].graph.nodes)
    requires NodeIds(fetched[key].graph.nodes[..i + 1]) == NodeIds(fetched[key].graph.nodes[..i]) + {fetched[key].graph.nodes[i].id}
    ensures var id := fetched[key].graph.nodes[i].id;
      ChildrenUpTo(fetched, key, effective, i + 1, children[id := Instantiate(fetched, KeyOfNested(fetched, key, id), effective[id])])
  {
    hide Instantiate, KeyOfNested, SoundClosure, NodeIds, ComponentNodes;
  }

  lemma ChildSkipped(fetched: Definitions, key: ComponentKey, effective: map<NodeId, Params>, i: nat, children: map<NodeId, Instance>)
    requires SoundClosure(fetched) && key in fetched && effective.Keys == NodeIds(fetched[key].graph.nodes) && i < |fetched[key].graph.nodes|
    requires ChildrenUpTo(fetched, key, effective, i, children)
    requires fetched[key].graph.nodes[i].id !in ComponentNodes(fetched[key].graph.nodes)
    requires NodeIds(fetched[key].graph.nodes[..i + 1]) == NodeIds(fetched[key].graph.nodes[..i]) + {fetched[key].graph.nodes[i].id}
    ensures ChildrenUpTo(fetched, key, effective, i + 1, children)
  {
    hide Instantiate, KeyOfNested, SoundClosure, NodeIds, ComponentNodes;
  }

  lemma FaultsStep(cat: Catalog, fetched: Definitions, key: ComponentKey, effective: map<NodeId, Params>, path: Path, i: nat, faults: Findings)
    requires SoundClosure(fetched) && key in fetched && effective.Keys == NodeIds(fetched[key].graph.nodes) && i < |fetched[key].graph.nodes|
    requires FaultsUpTo(cat, fetched, key, effective, path, i, faults)
    ensures var id := fetched[key].graph.nodes[i].id;
      if id in ComponentNodes(fetched[key].graph.nodes)
      then FaultsUpTo(cat, fetched, key, effective, path, i + 1,
                      faults + InstanceFaults(cat, fetched, KeyOfNested(fetched, key, id), effective[id], path + [id]))
      else FaultsUpTo(cat, fetched, key, effective, path, i + 1, faults)
  {
    hide InstanceFaults, KeyOfNested, SoundClosure, NodeIds, ComponentNodes;
    var nodes := fetched[key].graph.nodes;
    SoundUnique(fetched, key);
    NextNode(nodes, i);
    var x := nodes[i].id;
    if x in ComponentNodes(nodes) {
      var more := InstanceFaults(cat, fetched, KeyOfNested(fetched, key, x), effective[x], path + [x]);
      forall f ensures f in faults + more <==> FoundAt(cat, fetched, key, effective, path, i + 1, f) {
        assert f in faults <==> FoundAt(cat, fetched, key, effective, path, i, f);
        if FoundAt(cat, fetched, key, effective, path, i, f) {
          var id :| FoundIn(cat, fetched, key, effective, path, i, id, f);
          assert FoundIn(cat, fetched, key, effective, path, i + 1, id, f);
        }
        if f in more {
          assert FoundIn(cat, fetched, key, effective, path, i + 1, x, f);
        }
        if FoundAt(cat, fetched, key, effective, path, i + 1, f) {
          var id :| FoundIn(cat, fetched, key, effective, path, i + 1, id, f);
          if id != x { assert FoundIn(cat, fetched, key, effective, path, i, id, f); }
        }
      }
    } else {
      forall f ensures f in faults <==> FoundAt(cat, fetched, key, effective, path, i + 1, f) {
        assert f in faults <==> FoundAt(cat, fetched, key, effective, path, i, f);
        if FoundAt(cat, fetched, key, effective, path, i, f) {
          var id :| FoundIn(cat, fetched, key, effective, path, i, id, f);
          assert FoundIn(cat, fetched, key, effective, path, i + 1, id, f);
        }
        if FoundAt(cat, fetched, key, effective, path, i + 1, f) {
          var id :| FoundIn(cat, fetched, key, effective, path, i + 1, id, f);
          assert FoundIn(cat, fetched, key, effective, path, i, id, f);
        }
      }
    }
  }

  lemma SoundUnique(fetched: Definitions, key: ComponentKey)
    requires SoundClosure(fetched) && key in fetched
    ensures UniqueIds(fetched[key].graph.nodes)
  {
  }

  lemma UpToStarts(cat: Catalog, fetched: Definitions, key: ComponentKey, effective: map<NodeId, Params>, path: Path)
    requires SoundClosure(fetched) && key in fetched && effective.Keys == NodeIds(fetched[key].graph.nodes)
    ensures ChildrenUpTo(fetched, key, effective, 0, map[]) && FaultsUpTo(cat, fetched, key, effective, path, 0, {})
  {
    hide Instantiate, InstanceFaults, KeyOfNested, SoundClosure;
  }

  lemma ChildrenEnd(fetched: Definitions, key: ComponentKey, provided: Params, children: map<NodeId, Instance>)
    requires SoundClosure(fetched) && key in fetched
    requires ChildrenUpTo(fetched, key, EffectiveParams(fetched[key], provided), |fetched[key].graph.nodes|, children)
    ensures Instance(fetched[key], EffectiveParams(fetched[key], provided), children) == Instantiate(fetched, key, provided)
  {
    hide KeyOfNested, SoundClosure, EffectiveParams, NodeIds;
    var nodes := fetched[key].graph.nodes;
    assert nodes[..|nodes|] == nodes;
    var whole := Instantiate(fetched, key, provided);
    forall id ensures Get(children, id) == Get(whole.children, id) {
    }
    SameMaps(children, whole.children);
  }

  lemma FaultsEnd(cat: Catalog, fetched: Definitions, key: ComponentKey, provided: Params, path: Path, faults: Findings)
    requires SoundClosure(fetched) && key in fetched
    requires FaultsUpTo(cat, fetched, key, EffectiveParams(fetched[key], provided), path, |fetched[key].graph.nodes|, faults)
    ensures ProvidedFaults(fetched[key], provided, path)
            + EffectiveFaults(cat, EffectiveParams(fetched[key], provided), path, fetched[key].graph.nodes) + faults
            == InstanceFaults(cat, fetched, key, provided, path)
  {
    hide KeyOfNested, SoundClosure, ProvidedFaults, EffectiveFaults, EffectiveParams;
    var nodes := fetched[key].graph.nodes;
    assert nodes[..|nodes|] == nodes;
    var effective := EffectiveParams(fetched[key], provided);
    forall f ensures f in faults <==>
      (exists id :: id in ComponentNodes(nodes) && f in InstanceFaults(cat, fetched, KeyOfNested(fetched, key, id), effective[id], path + [id]))
    {
      assert f in faults <==> FoundAt(cat, fetched, key, effective, path, |nodes|, f);
      if FoundAt(cat, fetched, key, effective, path, |nodes|, f) {
        var id :| FoundIn(cat, fetched, key, effective, path, |nodes|, id, f);
      }
      if exists id :: id in ComponentNodes(nodes) && f in InstanceFaults(cat, fetched, KeyOfNested(fetched, key, id), effective[id], path + [id]) {
        var id :| id in ComponentNodes(nodes) && f in InstanceFaults(cat, fetched, KeyOfNested(fetched, key, id), effective[id], path + [id]);
        assert FoundIn(cat, fetched, key, effective, path, |nodes|, id, f);
      }
    }
  }

  /** Recursion into nested component nodes ends because pins are acyclic. */
  method BuildInstance(cat: Catalog, fetched: Definitions, key: ComponentKey, provided: Params, path: Path)
    returns (inst: Instance, faults: Findings)
    requires SoundClosure(fetched) && key in fetched
    ensures inst == Instantiate(fetched, key, provided)
    ensures faults == InstanceFaults(cat, fetched, key, provided, path)
    decreases Height(fetched, key)
  {
    hide Instantiate, InstanceFaults, EffectiveParams, EffectiveFaults, ProvidedFaults, SoundClosure, ChildrenUpTo, FaultsUpTo;
    var d := fetched[key];
    var effective, providedFaults := ApplyParams(d, provided, path);
    var effectiveFaults := CheckEffectiveParams(cat, effective, path, d.graph.nodes);
    var children: map<NodeId, Instance> := map[];
    var childFaults: Findings := {};
    UpToStarts(cat, fetched, key, effective, path);
    for i := 0 to |d.graph.nodes|
      invariant ChildrenUpTo(fetched, key, effective, i, children)
      invariant FaultsUpTo(cat, fetched, key, effective, path, i, childFaults)
    {
      ChildrenStep(fetched, key, effective, i, children);
      FaultsStep(cat, fetched, key, effective, path, i, childFaults);
      var node := d.graph.nodes[i];
      SoundUnique(fetched, key);
      NextNode(d.graph.nodes, i);
      if node.Component? {
        NodeOfUnique(d.graph.nodes, node);
        ghost var target := KeyOfNested(fetched, key, node.id);
        var nested := RefKey(d.refs, node.ref).value;
        assert nested == target;
        var child, found := BuildInstance(cat, fetched, nested, effective[node.id], path + [node.id]);
        children := children[node.id := child];
        childFaults := childFaults + found;
      }
    }
    ChildrenEnd(fetched, key, provided, children);
    FaultsEnd(cat, fetched, key, provided, path, childFaults);
    inst := Instance(d, effective, children);
    faults := providedFaults + effectiveFaults + childFaults;
  }
}
