/** Component resolution: `resolve_strategy_components` of quantize/components/resolve.py. */
module Resolution {
  import opened Closure
  import opened Collections
  import opened Cycles
  import opened DefinitionChecks
  import opened Diagnostics
  import opened Documents
  import opened Evaluator
  import opened Instantiation
  import opened Planning
  import opened Typing
  import opened Validation
  import opened TreeWiring

  /* ---- the closure as a function of the store and the pins ---- */

  function Mentioned(store: Definitions, roots: set<ComponentKey>): set<ComponentKey> {
    roots + set k, r | k in store && r in KeysOf(store[k].refs) :: r
  }

  ghost function ClosureOf(store: Definitions, roots: set<ComponentKey>): (r: Definitions)
    ensures IsClosure(store, roots, r)
  {
    map k | k in store && Reachable(store, roots, k) :: store[k]
  }

  ghost function AbsentOf(store: Definitions, roots: set<ComponentKey>): (r: set<ComponentKey>)
    ensures AreAbsent(store, roots, r)
  {
    forall k | k !in store && Reachable(store, roots, k) ensures k in Mentioned(store, roots) {
      LastMentioned(store, roots, k);
    }
    set k | k in Mentioned(store, roots) && k !in store && Reachable(store, roots, k)
  }

  lemma LastMentioned(store: Definitions, roots: set<ComponentKey>, k: ComponentKey)
    requires Reachable(store, roots, k)
    ensures k in Mentioned(store, roots)
  {
    var w :| PinChain(store, roots, w) && w[|w| - 1] == k;
    if |w| > 1 {
      assert Pins(store, w[|w| - 2], w[|w| - 1]);
    }
  }

  lemma AbsentUnique(store: Definitions, roots: set<ComponentKey>, a: set<ComponentKey>, b: set<ComponentKey>)
    requires AreAbsent(store, roots, a) && AreAbsent(store, roots, b)
    ensures a == b
  {
    hide Reachable;
    forall k ensures k in a <==> k in b {
    }
  }

  /** A loaded catalog resolves to the same closure as the store it was loaded from, with the same absent pins. */
  lemma LoadedClosure(store: Definitions, roots: set<ComponentKey>, loaded: Definitions)
    requires IsClosure(store, roots, loaded)
    ensures ClosureOf(loaded, roots) == ClosureOf(store, roots) == loaded
    ensures AbsentOf(loaded, roots) == AbsentOf(store, roots)
  {
    hide Reachable, Mentioned;
    ClosuresAgree(store, roots, loaded);
    ClosureUnique(loaded, roots, ClosureOf(loaded, roots), loaded);
    ClosureUnique(store, roots, ClosureOf(store, roots), loaded);
    AbsentUnique(loaded, roots, AbsentOf(loaded, roots), AbsentOf(store, roots));
  }

  /* ---- definition gates ---- */

  /** The definitions in key order. */
  function Listed(fetched: Definitions): (r: seq<Definition>)
    ensures |r| == |fetched.Keys|
    ensures forall i :: 0 <= i < |r| ==> Sorted(fetched.Keys)[i] in fetched && r[i] == fetched[Sorted(fetched.Keys)[i]]
  {
    var keys := Sorted(fetched.Keys);
    assert forall i :: 0 <= i < |keys| ==> keys[i] in keys;
    seq(|keys|, i requires 0 <= i < |keys| => fetched[keys[i]])
  }

  ghost function InvalidFault(d: Definition): Findings {
    if DefinitionFaults(d) == {} then {} else {Fault(ComponentDefinitionInvalid, d.key)}
  }

  ghost function InvalidFaults(ds: seq<Definition>): Findings {
    Union(seq(|ds|, i requires 0 <= i < |ds| => InvalidFault(ds[i])))
  }

  ghost function AllSemanticFaults(cat: Catalog, fetched: Definitions, ds: seq<Definition>): Findings {
    Union(seq(|ds|, i requires 0 <= i < |ds| => SemanticFaults(cat, fetched, ds[i])))
  }

  function AbsentFaults(missing: set<ComponentKey>): Findings {
    set k | k in missing :: Fault(ComponentDefinitionUnavailable, k)
  }

  /** Missing pins, recursion and structural validity; the registry checks run only if these are clean. */
  ghost function GateFaults(cat: Catalog, fetched: Definitions, missing: set<ComponentKey>): Findings {
    var ds := Listed(fetched);
    var gate := AbsentFaults(missing) + SetFaults(ds) + InvalidFaults(ds);
    if gate != {} then gate else AllSemanticFaults(cat, fetched, ds)
  }

  lemma InvalidNone(ds: seq<Definition>)
    requires InvalidFaults(ds) == {}
    ensures forall d: Definition :: d in ds ==> DefinitionFaults(d) == {}
  {
    hide DefinitionFaults;
    var rs := seq(|ds|, i requires 0 <= i < |ds| => InvalidFault(ds[i]));
    UnionEmpty(rs);
    forall d: Definition | d in ds ensures DefinitionFaults(d) == {} {
      var i :| 0 <= i < |ds| && ds[i] == d;
      assert rs[i] == {};
    }
  }

  lemma SemanticNone(cat: Catalog, fetched: Definitions, ds: seq<Definition>)
    requires AllSemanticFaults(cat, fetched, ds) == {}
    ensures forall d: Definition :: d in ds ==> SemanticFaults(cat, fetched, d) == {}
  {
    hide SemanticFaults;
    var rs := seq(|ds|, i requires 0 <= i < |ds| => SemanticFaults(cat, fetched, ds[i]));
    UnionEmpty(rs);
    forall d: Definition | d in ds ensures SemanticFaults(cat, fetched, d) == {} {
      var i :| 0 <= i < |ds| && ds[i] == d;
      assert rs[i] == {};
    }
  }

  lemma ListedMembers(fetched: Definitions)
    ensures forall k :: k in fetched ==> fetched[k] in Listed(fetched)
    ensures forall d: Definition :: d in Listed(fetched) ==> exists k :: k in fetched && fetched[k] == d
  {
    var keys, ds := Sorted(fetched.Keys), Listed(fetched);
    forall k | k in fetched ensures fetched[k] in ds {
      assert k in keys;
      var i :| 0 <= i < |keys| && keys[i] == k;
      assert ds[i] == fetched[k];
    }
  }

  lemma CleanStructure(d: Definition)
    requires DefinitionFaults(d) == {}
    ensures GraphOk(d.graph, RefIds(d.refs))
  {
    hide GraphFaults, DuplicateRefFaults, GraphOk;
    assert GraphFaults(d.graph, RefIds(d.refs)) == {};
    GraphFaultsNone(d.graph, RefIds(d.refs));
  }

  /** Within a closed set of definitions the supplied-set pairs are all the pins. */
  lemma PairsAgree(fetched: Definitions)
    requires KeyedByIdentity(fetched) && SetOk(Listed(fetched))
    requires Within(PinPairs(fetched), fetched.Keys)
    ensures RefPairs(Listed(fetched)) == PinPairs(fetched)
  {
    hide Acyclic, DependsOn, Pins, Listed, KeyedByIdentity, SetOk;
    var ds := Listed(fetched);
    forall a, b ensures (a, b) in RefPairs(ds) <==> (a, b) in PinPairs(fetched) {
      if DependsOn(ds, a, b) {
        DependingPins(fetched, a, b);
      }
      if (a, b) in PinPairs(fetched) {
        PinnedDepends(fetched, a, b);
      }
    }
  }

  lemma DependingPins(fetched: Definitions, a: ComponentKey, b: ComponentKey)
    requires KeyedByIdentity(fetched) && DependsOn(Listed(fetched), a, b)
    ensures Pins(fetched, a, b)
  {
    hide Listed;
    ListedMembers(fetched);
    var d: Definition, r :| d in Listed(fetched) && d.key == a && r in d.refs && r.key == b;
    var k :| k in fetched && fetched[k] == d;
    var i :| 0 <= i < |d.refs| && d.refs[i] == r;
  }

  lemma PinnedDepends(fetched: Definitions, a: ComponentKey, b: ComponentKey)
    requires KeyedByIdentity(fetched) && SetOk(Listed(fetched)) && Pins(fetched, a, b) && b in fetched
    ensures DependsOn(Listed(fetched), a, b)
  {
    hide Listed, SetOk, Supplied, DependsOn;
    ListedMembers(fetched);
    var d := fetched[a];
    var i :| 0 <= i < |d.refs| && d.refs[i].key == b;
    var r := d.refs[i];
    assert r in d.refs;
    NoSelfPin(Listed(fetched), d, r);
    DependsBy(Listed(fetched), d, r, fetched[b]);
  }

  lemma DependsBy(ds: seq<Definition>, d: Definition, r: ComponentRef, e: Definition)
    requires d in ds && e in ds && r in d.refs && r.key == e.key && r.key != d.key
    ensures DependsOn(ds, d.key, e.key)
  {
    hide Supplied;
  }

  lemma NoSelfPin(ds: seq<Definition>, d: Definition, r: ComponentRef)
    requires SetOk(ds) && d in ds && r in d.refs
    ensures r.key != d.key
  {
    hide Acyclic, RefPairs;
  }

  lemma AbsentNone(missing: set<ComponentKey>)
    ensures AbsentFaults(missing) == {} ==> missing == {}
  {
    assert forall k :: k in missing ==> Fault(ComponentDefinitionUnavailable, k) in AbsentFaults(missing);
    EmptySet(missing);
  }

  /** With nothing absent the closure holds the roots and everything its members pin. */
  lemma ClosedWhenComplete(store: Definitions, roots: set<ComponentKey>, fetched: Definitions)
    requires IsClosure(store, roots, fetched) && AreAbsent(store, roots, {})
    ensures roots <= fetched.Keys && Within(PinPairs(fetched), fetched.Keys)
  {
    hide Reachable, KeysOf;
    var none: set<ComponentKey> := {};
    assert forall k :: k in none <==> k !in store && Reachable(store, roots, k);
    forall k | k in roots ensures k in fetched {
      RootReachable(store, roots, k);
    }
    forall a, b | (a, b) in PinPairs(fetched) ensures a in fetched && b in fetched {
      assert Pins(fetched, a, b);
      assert Pins(store, a, b);
      PinReachable(store, roots, a, b);
    }
  }

  lemma GatesSplit(cat: Catalog, fetched: Definitions, missing: set<ComponentKey>)
    requires GateFaults(cat, fetched, missing) == {}
    ensures missing == {} && SetOk(Listed(fetched)) && AllClean(cat, fetched)
    ensures forall k :: k in fetched ==> GraphOk(fetched[k].graph, RefIds(fetched[k].refs))
  {
    hide SetFaults, InvalidFaults, AllSemanticFaults, SemanticFaults, GraphOk, SetOk, DefinitionFaults;
    var ds := Listed(fetched);
    AbsentNone(missing);
    SetFaultsNone(ds);
    InvalidNone(ds);
    SemanticNone(cat, fetched, ds);
    ListedMembers(fetched);
    forall k | k in fetched ensures GraphOk(fetched[k].graph, RefIds(fetched[k].refs)) {
      CleanStructure(fetched[k]);
    }
  }

  /** The gates pass only closures that can be instantiated: complete, acyclic, structurally sound and well wired. */
  lemma GatesAreSound(cat: Catalog, store: Definitions, roots: set<ComponentKey>, fetched: Definitions, missing: set<ComponentKey>)
    requires KeyedByIdentity(store) && IsClosure(store, roots, fetched) && AreAbsent(store, roots, missing)
    requires GateFaults(cat, fetched, missing) == {}
    ensures SoundClosure(fetched) && AllClean(cat, fetched) && roots <= fetched.Keys
  {
    hide GateFaults, Reachable, AllClean, GraphOk, SetOk, Acyclic;
    GatesSplit(cat, fetched, missing);
    ClosedWhenComplete(store, roots, fetched);
    PairsAgree(fetched);
    SetAcyclic(Listed(fetched));
  }

  lemma SetAcyclic(ds: seq<Definition>)
    requires SetOk(ds)
    ensures Acyclic(RefPairs(ds))
  {
  }

  /* ---- the strategy ---- */

  datatype ResolvedStrategy = ResolvedStrategy(faults: Findings, instances: map<NodeId, Instance>)
  {
    predicate Ok() { faults == {} }
  }

  /** What resolution takes for granted of the document: distinct node ids and declared component references. */
  ghost predicate Resolvable(doc: Document) {
    UniqueIds(doc.graph.nodes) && forall n :: n in doc.graph.nodes && n.Component? ==> n.ref in RefIds(doc.refs)
  }

  lemma DocumentRefs(doc: Document, id: NodeId)
    requires Resolvable(doc) && id in ComponentNodes(doc.graph.nodes)
    ensures RefKey(doc.refs, NodeOf(doc.graph.nodes, id).ref).Some?
    ensures RefKey(doc.refs, NodeOf(doc.graph.nodes, id).ref).value in KeysOf(doc.refs)
  {
    DeclaredKey(doc.refs, NodeOf(doc.graph.nodes, id));
  }

  /** The definition a component node of the document points at. */
  ghost function RootKey(doc: Document, id: NodeId): (r: ComponentKey)
    requires Resolvable(doc) && id in ComponentNodes(doc.graph.nodes)
    ensures r in KeysOf(doc.refs) && RefKey(doc.refs, NodeOf(doc.graph.nodes, id).ref) == Some(r)
  {
    DocumentRefs(doc, id);
    RefKey(doc.refs, NodeOf(doc.graph.nodes, id).ref).value
  }

  /** Every component node of the document instantiated, with everything wrong with their parameters. */
  ghost function Instances(cat: Catalog, doc: Document, fetched: Definitions): ResolvedStrategy
    requires Resolvable(doc) && SoundClosure(fetched) && KeysOf(doc.refs) <= fetched.Keys
  {
    ResolvedStrategy(
      set id, f | id in ComponentNodes(doc.graph.nodes)
                  && f in InstanceFaults(cat, fetched, RootKey(doc, id), NodeOf(doc.graph.nodes, id).params, [id]) :: f,
      map id | id in ComponentNodes(doc.graph.nodes) :: Instantiate(fetched, RootKey(doc, id), NodeOf(doc.graph.nodes, id).params))
  }

  /** Resolution depends on the store only through the closure and the absent pins. */
  ghost function Resolve(cat: Catalog, doc: Document, store: Definitions): ResolvedStrategy
    requires KeyedByIdentity(store) && Resolvable(doc)
  {
    var fetched, missing := ClosureOf(store, KeysOf(doc.refs)), AbsentOf(store, KeysOf(doc.refs));
    var gate := GateFaults(cat, fetched, missing);
    if gate != {} then ResolvedStrategy(gate, map[])
    else
      GatesAreSound(cat, store, KeysOf(doc.refs), fetched, missing);
      Instances(cat, doc, fetched)
  }

  /** Resolving against the catalog loaded for the document gives what resolving against the whole store gives. */
  lemma ResolveFromLoaded(cat: Catalog, doc: Document, store: Definitions, loaded: Definitions)
    requires KeyedByIdentity(store) && Resolvable(doc)
    requires IsClosure(store, KeysOf(doc.refs), loaded)
    ensures KeyedByIdentity(loaded)
    ensures Resolve(cat, doc, loaded) == Resolve(cat, doc, store)
  {
    hide ClosureOf, AbsentOf, GateFaults, Reachable, KeysOf, Instances, Resolvable, SoundClosure, AllClean;
    LoadedClosure(store, KeysOf(doc.refs), loaded);
  }

  /** What an accepted resolution hands over: a well-wired instance for each component node, whose exposed inputs and
      outputs carry distinct names. */
  lemma ResolvedIsWired(cat: Catalog, doc: Document, store: Definitions, id: NodeId)
    requires KeyedByIdentity(store) && Resolvable(doc) && id in ComponentNodes(doc.graph.nodes)
    requires Resolve(cat, doc, store).Ok()
    ensures var instances := Resolve(cat, doc, store).instances;
      id in instances && WellWired(cat, instances[id])
      && DistinctNames(instances[id].definition.exposedInputs) && DistinctNames(instances[id].definition.exposedOutputs)
  {
    hide GateFaults, InstanceFaults, SoundClosure, WellWired, DistinctNames, SemanticFaults, KeysOf, Height, EffectiveParams, Resolvable;
    hide ClosureOf, AbsentOf, KeyedByIdentity;
    var fetched, missing := ClosureOf(store, KeysOf(doc.refs)), AbsentOf(store, KeysOf(doc.refs));
    GatesAreSound(cat, store, KeysOf(doc.refs), fetched, missing);
    var key := RootKey(doc, id);
    InstanceWired(cat, fetched, key, NodeOf(doc.graph.nodes, id).params);
    ExposuresDistinct(cat, fetched, fetched[key]);
  }

  /* ---- the loops ---- */

  method CheckDefinitions(ds: seq<Definition>) returns (faults: Findings)
    ensures faults == InvalidFaults(ds)
  {
    hide Union, DefinitionFaults;
    ghost var rs := seq(|ds|, i requires 0 <= i < |ds| => InvalidFault(ds[i]));
    faults := {};
    EmptyPrefix(rs, []);
    for i := 0 to |ds|
      invariant faults == Union(rs[..i])
    {
      UnionSnoc(rs, i);
      var found := ValidateDefinition(ds[i]);
      if found != {} {
        faults := faults + {Fault(ComponentDefinitionInvalid, ds[i].key)};
      }
    }
    WholePrefix(rs);
  }

  method CheckSemantics(cat: Catalog, fetched: Definitions, ds: seq<Definition>) returns (faults: Findings)
    requires forall d: Definition :: d in ds ==> GraphOk(d.graph, RefIds(d.refs))
    ensures faults == AllSemanticFaults(cat, fetched, ds)
  {
    hide Union, SemanticFaults, GraphOk;
    ghost var rs := seq(|ds|, i requires 0 <= i < |ds| => SemanticFaults(cat, fetched, ds[i]));
    faults := {};
    EmptyPrefix(rs, []);
    for i := 0 to |ds|
      invariant faults == Union(rs[..i])
    {
      UnionSnoc(rs, i);
      var d := ds[i];
      assert d in ds;
      var found := CheckDefinition(cat, fetched, d);
      faults := faults + found;
    }
    WholePrefix(rs);
  }

  /** `_run_definition_gates`. */
  method RunDefinitionGates(cat: Catalog, fetched: Definitions, missing: set<ComponentKey>) returns (faults: Findings)
    ensures faults == GateFaults(cat, fetched, missing)
  {
    hide SetFaults, InvalidFaults, AllSemanticFaults, GraphOk, DefinitionFaults;
    var ds := Listed(fetched);
    var setFaults, _ := ValidateSet(ds);
    var invalid := CheckDefinitions(ds);
    faults := AbsentFaults(missing) + setFaults + invalid;
    if faults == {} {
      InvalidNone(ds);
      forall d: Definition | d in ds ensures GraphOk(d.graph, RefIds(d.refs)) {
        CleanStructure(d);
      }
      faults := CheckSemantics(cat, fetched, ds);
    }
  }

  ghost predicate InstancesUpTo(cat: Catalog, doc: Document, fetched: Definitions, i: nat, r: ResolvedStrategy)
    requires Resolvable(doc) && SoundClosure(fetched) && KeysOf(doc.refs) <= fetched.Keys && i <= |doc.graph.nodes|
  {
    var nodes := doc.graph.nodes;
    && (forall id :: Get(r.instances, id) == if id in ComponentNodes(nodes) && id in NodeIds(nodes[..i])
                                             then Some(Instantiate(fetched, RootKey(doc, id), NodeOf(nodes, id).params)) else None)
    && (forall f :: f in r.faults <==> FoundSome(cat, doc, fetched, i, f))
  }

  ghost predicate FoundSome(cat: Catalog, doc: Document, fetched: Definitions, i: nat, f: Diagnostic)
    requires Resolvable(doc) && SoundClosure(fetched) && KeysOf(doc.refs) <= fetched.Keys && i <= |doc.graph.nodes|
  {
    exists id :: FoundUnder(cat, doc, fetched, i, id, f)
  }

  ghost predicate FoundUnder(cat: Catalog, doc: Document, fetched: Definitions, i: nat, id: NodeId, f: Diagnostic)
    requires Resolvable(doc) && SoundClosure(fetched) && KeysOf(doc.refs) <= fetched.Keys && i <= |doc.graph.nodes|
  {
    id in ComponentNodes(doc.graph.nodes) && id in NodeIds(doc.graph.nodes[..i])
    && f in InstanceFaults(cat, fetched, RootKey(doc, id), NodeOf(doc.graph.nodes, id).params, [id])
  }

  lemma InstancesStart(cat: Catalog, doc: Document, fetched: Definitions)
    requires Resolvable(doc) && SoundClosure(fetched) && KeysOf(doc.refs) <= fetched.Keys
    ensures InstancesUpTo(cat, doc, fetched, 0, ResolvedStrategy({}, map[]))
  {
    hide GraphOk, SoundClosure, Instantiate, InstanceFaults, RootKey, KeysOf;
  }

  lemma InstancesStep(cat: Catalog, doc: Document, fetched: Definitions, i: nat, r: ResolvedStrategy)
    requires Resolvable(doc) && SoundClosure(fetched) && KeysOf(doc.refs) <= fetched.Keys && i < |doc.graph.nodes|
    requires InstancesUpTo(cat, doc, fetched, i, r)
    ensures var nodes := doc.graph.nodes;
      var id := nodes[i].id;
      if id in ComponentNodes(nodes)
      then InstancesUpTo(cat, doc, fetched, i + 1, ResolvedStrategy(
             r.faults + InstanceFaults(cat, fetched, RootKey(doc, id), NodeOf(nodes, id).params, [id]),
             r.instances[id := Instantiate(fetched, RootKey(doc, id), NodeOf(nodes, id).params)]))
      else InstancesUpTo(cat, doc, fetched, i + 1, r)
  {
    hide SoundClosure, Instantiate, InstanceFaults, RootKey, KeysOf, NodeIds, ComponentNodes, GraphOk;
    var nodes := doc.graph.nodes;
    NextNode(nodes, i);
    var x := nodes[i].id;
    forall f, id ensures FoundUnder(cat, doc, fetched, i + 1, id, f) <==>
      FoundUnder(cat, doc, fetched, i, id, f)
      || (id == x && id in ComponentNodes(nodes) && f in InstanceFaults(cat, fetched, RootKey(doc, id), NodeOf(nodes, id).params, [id]))
    {
    }
    if x in ComponentNodes(nodes) {
      var more := InstanceFaults(cat, fetched, RootKey(doc, x), NodeOf(nodes, x).params, [x]);
      forall f ensures f in r.faults + more <==> FoundSome(cat, doc, fetched, i + 1, f) {
        if FoundSome(cat, doc, fetched, i, f) {
          var id :| FoundUnder(cat, doc, fetched, i, id, f);
          assert FoundUnder(cat, doc, fetched, i + 1, id, f);
        }
        if f in more {
          assert FoundUnder(cat, doc, fetched, i + 1, x, f);
        }
      }
    } else {
      forall f ensures f in r.faults <==> FoundSome(cat, doc, fetched, i + 1, f) {
        if FoundSome(cat, doc, fetched, i, f) {
          var id :| FoundUnder(cat, doc, fetched, i, id, f);
          assert FoundUnder(cat, doc, fetched, i + 1, id, f);
        }
      }
    }
  }

  lemma InstancesEnd(cat: Catalog, doc: Document, fetched: Definitions, r: ResolvedStrategy)
    requires Resolvable(doc) && SoundClosure(fetched) && KeysOf(doc.refs) <= fetched.Keys
    requires InstancesUpTo(cat, doc, fetched, |doc.graph.nodes|, r)
    ensures r == Instances(cat, doc, fetched)
  {
    hide SoundClosure, Instantiate, InstanceFaults, RootKey, KeysOf, GraphOk, NodeIds;
    var nodes := doc.graph.nodes;
    assert nodes[..|nodes|] == nodes;
    var whole := Instances(cat, doc, fetched);
    forall id ensures Get(r.instances, id) == Get(whole.instances, id) {
    }
    SameMaps(r.instances, whole.instances);
    forall f ensures f in r.faults <==> f in whole.faults {
      assert f in r.faults <==> FoundSome(cat, doc, fetched, |nodes|, f);
      if FoundSome(cat, doc, fetched, |nodes|, f) {
        var id :| FoundUnder(cat, doc, fetched, |nodes|, id, f);
      }
      if f in whole.faults {
        var id :| id in ComponentNodes(nodes) && f in InstanceFaults(cat, fetched, RootKey(doc, id), NodeOf(nodes, id).params, [id]);
        assert FoundUnder(cat, doc, fetched, |nodes|, id, f);
      }
    }
    assert r.faults == whole.faults;
  }

  /** Fetch, gate, and instantiate over a sound closure only. */
  method ResolveStrategyComponents(cat: Catalog, doc: Document, store: Definitions) returns (r: ResolvedStrategy)
    requires KeyedByIdentity(store) && Resolvable(doc)
    ensures r == Resolve(cat, doc, store)
  {
    hide ClosureOf, AbsentOf, GateFaults, GraphOk, InstanceFaults, Instantiate, InstancesUpTo, SoundClosure, KeyedByIdentity, KeysOf, AllClean;
    hide Reachable, IsClosure, AreAbsent, Instances;
    var fetched, missing := FetchDefinitionClosure(store, doc.refs);
    ClosureUnique(store, KeysOf(doc.refs), fetched, ClosureOf(store, KeysOf(doc.refs)));
    AbsentUnique(store, KeysOf(doc.refs), missing, AbsentOf(store, KeysOf(doc.refs)));
    var faults := RunDefinitionGates(cat, fetched, missing);
    if faults != {} {
      return ResolvedStrategy(faults, map[]);
    }
    GatesAreSound(cat, store, KeysOf(doc.refs), fetched, missing);
    r := ResolvedStrategy({}, map[]);
    InstancesStart(cat, doc, fetched);
    for i := 0 to |doc.graph.nodes|
      invariant InstancesUpTo(cat, doc, fetched, i, r)
    {
      InstancesStep(cat, doc, fetched, i, r);
      var node := doc.graph.nodes[i];
      NextNode(doc.graph.nodes, i);
      if node.Component? {
        NodeOfUnique(doc.graph.nodes, node);
        ghost var target := RootKey(doc, node.id);
        var key := RefKey(doc.refs, node.ref).value;
        assert key == target;
        var instance, found := BuildInstance(cat, fetched, key, node.params, [node.id]);
        r := ResolvedStrategy(r.faults + found, r.instances[node.id := instance]);
      }
    }
    InstancesEnd(cat, doc, fetched, r);
  }
}
