/** Which fault every finding names: quantize/validation/structural.py, quantize/validation/semantic.py,
    quantize/components/resolve.py and quantize/evaluator/preflight.py. */
module FindingCodes {
  import opened Closure
  import opened Collections
  import opened Cycles
  import opened DefinitionChecks
  import opened Diagnostics
  import opened Documents
  import opened Evaluator
  import opened Instantiation
  import opened PortWiring
  import opened Preflight
  import opened Resolution
  import opened Validation

  /* ---- structure ---- */

  /** The fault of a graph that a finding names. */
  ghost predicate GraphFault(g: Graph, declared: set<RefId>, code: Code, x: int) {
    match code
    case DuplicateNodeId => Twice(IdsOf(g.nodes), x)
    case UnknownComponentRef => exists n :: n in g.nodes && n.Component? && n.ref == x && x !in declared
    case EdgeEndpointUnknownNode => x !in NodeIds(g.nodes) && exists e :: e in g.edges && (e.src == x || e.dst == x)
    case SelfEdge => exists e :: e in g.edges && e.src == x && e.dst == x
    case GraphCycle => x == 0 && exists w: seq<NodeId> :: ProperCycle(g, w)
    case _ => false
  }

  function IdsOf(nodes: seq<Node>): (r: seq<NodeId>)
    ensures |r| == |nodes| && forall i :: 0 <= i < |r| ==> r[i] == nodes[i].id
  {
    seq(|nodes|, i requires 0 <= i < |nodes| => nodes[i].id)
  }

  /** The number occurs at two places. */
  ghost predicate Twice(s: seq<int>, x: int) {
    exists i, j :: 0 <= i < j < |s| && s[i] == x && s[j] == x
  }

  /** An edge between existing, different nodes. */
  ghost predicate StepOf(g: Graph, a: NodeId, b: NodeId) {
    a != b && a in NodeIds(g.nodes) && b in NodeIds(g.nodes) && exists e :: e in g.edges && e.src == a && e.dst == b
  }

  /** A closed walk along such edges. */
  ghost predicate ProperCycle(g: Graph, w: seq<NodeId>) {
    |w| >= 2 && w[0] == w[|w| - 1] && forall k :: 0 <= k < |w| - 1 ==> StepOf(g, w[k], w[k + 1])
  }

  lemma DuplicatesTold(nodes: seq<Node>, d: Diagnostic)
    ensures d in DuplicateIdFaults(nodes) <==> d == Fault(DuplicateNodeId, d.subject) && Twice(IdsOf(nodes), d.subject)
  {
    hide NodeIds;
    var rs := seq(|nodes|, i requires 0 <= i < |nodes| => DuplicateIdFault(nodes, i));
    forall j | 0 <= j < |nodes| ensures nodes[j].id in NodeIds(nodes[..j]) <==> exists i :: 0 <= i < j && IdsOf(nodes)[i] == nodes[j].id {
      SeenBefore(nodes, j);
    }
    if d in Union(rs) {
      var j :| 0 <= j < |rs| && d in rs[j];
      var i :| 0 <= i < j && IdsOf(nodes)[i] == nodes[j].id;
    }
    if d == Fault(DuplicateNodeId, d.subject) && Twice(IdsOf(nodes), d.subject) {
      var i, j :| 0 <= i < j < |nodes| && IdsOf(nodes)[i] == d.subject && IdsOf(nodes)[j] == d.subject;
      assert d in rs[j];
    }
  }

  lemma SeenBefore(nodes: seq<Node>, j: nat)
    requires j < |nodes|
    ensures nodes[j].id in NodeIds(nodes[..j]) <==> exists i :: 0 <= i < j && IdsOf(nodes)[i] == nodes[j].id
  {
    if nodes[j].id in NodeIds(nodes[..j]) {
      var n :| n in nodes[..j] && n.id == nodes[j].id;
      var i :| 0 <= i < j && nodes[..j][i] == n;
      assert IdsOf(nodes)[i] == nodes[j].id;
    }
    if i :| 0 <= i < j && IdsOf(nodes)[i] == nodes[j].id {
      assert nodes[..j][i] in nodes[..j];
    }
  }

  lemma UndeclaredTold(declared: set<RefId>, nodes: seq<Node>, d: Diagnostic)
    ensures d in UndeclaredRefFaults(declared, nodes)
      <==> d == Fault(UnknownComponentRef, d.subject) && exists n :: n in nodes && n.Component? && n.ref == d.subject && d.subject !in declared
  {
    var rs := seq(|nodes|, i requires 0 <= i < |nodes| => UndeclaredRefFault(declared, nodes[i]));
    if d == Fault(UnknownComponentRef, d.subject) && exists n :: n in nodes && n.Component? && n.ref == d.subject && d.subject !in declared {
      var n :| n in nodes && n.Component? && n.ref == d.subject && d.subject !in declared;
      var i :| 0 <= i < |nodes| && nodes[i] == n;
      assert d in rs[i];
    }
  }

  lemma EdgesTold(ids: set<NodeId>, edges: seq<Edge>, d: Diagnostic)
    ensures d in EdgeFaults(ids, edges) <==>
      (d == Fault(EdgeEndpointUnknownNode, d.subject) && d.subject !in ids && exists e :: e in edges && (e.src == d.subject || e.dst == d.subject))
      || (d == Fault(SelfEdge, d.subject) && exists e :: e in edges && e.src == d.subject && e.dst == d.subject)
  {
    var rs := seq(|edges|, i requires 0 <= i < |edges| => EdgeFault(ids, edges[i]));
    if e :| e in edges && (e.src == d.subject || e.dst == d.subject) && d == Fault(EdgeEndpointUnknownNode, d.subject) && d.subject !in ids {
      var i :| 0 <= i < |edges| && edges[i] == e;
      assert d in rs[i];
    }
    if e :| e in edges && e.src == d.subject && e.dst == d.subject && d == Fault(SelfEdge, d.subject) {
      var i :| 0 <= i < |edges| && edges[i] == e;
      assert d in rs[i];
    }
  }

  lemma CyclesTold(g: Graph)
    ensures Acyclic(InnerPairs(NodeIds(g.nodes), g.edges)) <==> forall w: seq<NodeId> :: !ProperCycle(g, w)
  {
    hide InnerPairs, StepOf;
    var pairs := InnerPairs(NodeIds(g.nodes), g.edges);
    forall w: seq<NodeId> ensures ClosedWalk(pairs, w) <==> ProperCycle(g, w) {
      forall k | 0 <= k < |w| - 1 ensures (w[k], w[k + 1]) in pairs <==> StepOf(g, w[k], w[k + 1]) {
        PairTold(g, w[k], w[k + 1]);
      }
    }
  }

  lemma PairTold(g: Graph, a: NodeId, b: NodeId)
    ensures (a, b) in InnerPairs(NodeIds(g.nodes), g.edges) <==> StepOf(g, a, b)
  {
    hide NodeIds;
    if StepOf(g, a, b) {
      var e :| e in g.edges && e.src == a && e.dst == b;
      assert (e.src, e.dst) in EdgePairs(g.edges);
    }
  }

  /** A graph's findings name its faults, and every fault is found. */
  lemma GraphFindings(g: Graph, declared: set<RefId>, d: Diagnostic)
    ensures d in GraphFaults(g, declared) <==> d.path == [] && GraphFault(g, declared, d.code, d.subject)
  {
    hide DuplicateIdFaults, UndeclaredRefFaults, EdgeFaults, NodeIds, Acyclic, InnerPairs, ProperCycle;
    DuplicatesTold(g.nodes, d);
    UndeclaredTold(declared, g.nodes, d);
    EdgesTold(NodeIds(g.nodes), g.edges, d);
    CyclesTold(g);
  }

  function RefIdsOf(refs: seq<ComponentRef>): (r: seq<RefId>)
    ensures |r| == |refs| && forall i :: 0 <= i < |r| ==> r[i] == refs[i].id
  {
    seq(|refs|, i requires 0 <= i < |refs| => refs[i].id)
  }

  lemma RefsTold(refs: seq<ComponentRef>, d: Diagnostic)
    ensures d in DuplicateRefFaults(refs) <==> d == Fault(DuplicateRefId, d.subject) && Twice(RefIdsOf(refs), d.subject)
  {
    var rs := seq(|refs|, i requires 0 <= i < |refs| => DuplicateRefFault(refs, i));
    if d in Union(rs) {
      var j :| 0 <= j < |rs| && d in rs[j];
      var i :| 0 <= i < j && refs[i].id == refs[j].id;
      assert RefIdsOf(refs)[i] == RefIdsOf(refs)[j];
    }
    if d == Fault(DuplicateRefId, d.subject) && Twice(RefIdsOf(refs), d.subject) {
      var i, j :| 0 <= i < j < |refs| && RefIdsOf(refs)[i] == d.subject && RefIdsOf(refs)[j] == d.subject;
      assert refs[i].id == refs[j].id;
      assert d in rs[j];
    }
  }

  ghost predicate DocumentFault(doc: Document, code: Code, x: int) {
    match code
    case UnsupportedSchemaVersion => x == 0 && !doc.schemaSupported
    case DuplicateRefId => Twice(RefIdsOf(doc.refs), x)
    case _ => GraphFault(doc.graph, RefIds(doc.refs), code, x)
  }

  /** The findings of a document. */
  lemma DocumentFindings(doc: Document, d: Diagnostic)
    ensures d in DocumentFaults(doc) <==> d.path == [] && DocumentFault(doc, d.code, d.subject)
  {
    hide GraphFaults, DuplicateRefFaults, RefIds, NodeIds, ProperCycle, Twice;
    RefsTold(doc.refs, d);
    GraphFindings(doc.graph, RefIds(doc.refs), d);
  }

  ghost predicate DefinitionFault(def: Definition, code: Code, x: int) {
    match code
    case UnsupportedSchemaVersion => x == 0 && !def.schemaSupported
    case DuplicateRefId => Twice(RefIdsOf(def.refs), x)
    case ComponentDirectRecursion => x == def.key && exists r :: r in def.refs && r.key == def.key
    case _ => GraphFault(def.graph, RefIds(def.refs), code, x)
  }

  /** The findings of a definition: also direct recursion. */
  lemma DefinitionFindings(def: Definition, d: Diagnostic)
    ensures d in DefinitionFaults(def) <==> d.path == [] && DefinitionFault(def, d.code, d.subject)
  {
    hide GraphFaults, DuplicateRefFaults, RefIds, NodeIds, ProperCycle, Twice, SelfRefFaults;
    RefsTold(def.refs, d);
    GraphFindings(def.graph, RefIds(def.refs), d);
    SelfTold(def, d);
  }

  lemma SelfTold(def: Definition, d: Diagnostic)
    ensures d in SelfRefFaults(def) <==> d == Fault(ComponentDirectRecursion, def.key) && exists r :: r in def.refs && r.key == def.key
  {
    if r :| r in def.refs && r.key == def.key {
      var k :| 0 <= k < |def.refs| && def.refs[k] == r;
      assert def.refs[k].key == def.key;
    }
  }

  /* ---- definition sets ---- */

  function SetKeys(defs: seq<Definition>): (r: seq<ComponentKey>)
    ensures |r| == |defs| && forall i :: 0 <= i < |r| ==> r[i] == defs[i].key
  {
    seq(|defs|, i requires 0 <= i < |defs| => defs[i].key)
  }

  /** A definition of the set under one key refers to another key of the set. */
  ghost predicate RefersWithin(defs: seq<Definition>, a: ComponentKey, b: ComponentKey) {
    a != b && b in SetKeys(defs) && exists d: Definition, r :: d in defs && d.key == a && r in d.refs && r.key == b
  }

  ghost predicate ReferenceCycle(defs: seq<Definition>, w: seq<ComponentKey>) {
    |w| >= 2 && w[0] == w[|w| - 1] && forall k :: 0 <= k < |w| - 1 ==> RefersWithin(defs, w[k], w[k + 1])
  }

  ghost predicate SetFault(defs: seq<Definition>, code: Code, x: int) {
    match code
    case DuplicateComponentDefinition => Twice(SetKeys(defs), x)
    case ComponentDirectRecursion => exists d: Definition, r :: d in defs && d.key == x && r in d.refs && r.key == x
    case ComponentCycle => x == 0 && exists w: seq<ComponentKey> :: ReferenceCycle(defs, w)
    case _ => false
  }

  lemma KeysTold(defs: seq<Definition>, d: Diagnostic)
    ensures d in Union(seq(|defs|, i requires 0 <= i < |defs| => DuplicateKeyFault(defs, i)))
      <==> d == Fault(DuplicateComponentDefinition, d.subject) && Twice(SetKeys(defs), d.subject)
  {
    var rs := seq(|defs|, i requires 0 <= i < |defs| => DuplicateKeyFault(defs, i));
    if d in Union(rs) {
      var j :| 0 <= j < |rs| && d in rs[j];
      var i :| 0 <= i < j && defs[i].key == defs[j].key;
      assert SetKeys(defs)[i] == SetKeys(defs)[j];
    }
    if d == Fault(DuplicateComponentDefinition, d.subject) && Twice(SetKeys(defs), d.subject) {
      var i, j :| 0 <= i < j < |defs| && SetKeys(defs)[i] == d.subject && SetKeys(defs)[j] == d.subject;
      assert defs[i].key == defs[j].key;
      assert d in rs[j];
    }
  }

  lemma SelfRefsTold(defs: seq<Definition>, d: Diagnostic)
    ensures d in Union(seq(|defs|, i requires 0 <= i < |defs| => SelfRefFaults(defs[i])))
      <==> d == Fault(ComponentDirectRecursion, d.subject)
           && exists def: Definition, r :: def in defs && def.key == d.subject && r in def.refs && r.key == d.subject
  {
    hide SelfRefFaults;
    var rs := seq(|defs|, i requires 0 <= i < |defs| => SelfRefFaults(defs[i]));
    if d in Union(rs) {
      var i :| 0 <= i < |rs| && d in rs[i];
      SelfTold(defs[i], d);
      assert defs[i] in defs;
    }
    if def: Definition, r :| def in defs && def.key == d.subject && r in def.refs && r.key == d.subject && d == Fault(ComponentDirectRecursion, d.subject) {
      var i :| 0 <= i < |defs| && defs[i] == def;
      SelfTold(def, d);
      assert d in rs[i];
    }
  }

  lemma SetCyclesTold(defs: seq<Definition>)
    ensures Acyclic(RefPairs(defs)) <==> forall w: seq<ComponentKey> :: !ReferenceCycle(defs, w)
  {
    hide RefPairs, RefersWithin, DependsOn;
    forall w: seq<ComponentKey> ensures ClosedWalk(RefPairs(defs), w) <==> ReferenceCycle(defs, w) {
      forall k | 0 <= k < |w| - 1 ensures (w[k], w[k + 1]) in RefPairs(defs) <==> RefersWithin(defs, w[k], w[k + 1]) {
        DependsTold(defs, w[k], w[k + 1]);
      }
    }
  }

  lemma DependsTold(defs: seq<Definition>, a: ComponentKey, b: ComponentKey)
    ensures DependsOn(defs, a, b) <==> RefersWithin(defs, a, b)
  {
    if b in SetKeys(defs) {
      var i :| 0 <= i < |defs| && SetKeys(defs)[i] == b;
      assert defs[i].key in Supplied(defs);
    }
    if b in Supplied(defs) {
      var i :| 0 <= i < |defs| && defs[i].key == b;
      assert SetKeys(defs)[i] == b;
    }
  }

  /** The findings of a definition set. */
  lemma SetFindings(defs: seq<Definition>, d: Diagnostic)
    ensures d in SetFaults(defs) <==> d.path == [] && SetFault(defs, d.code, d.subject)
  {
    hide SelfRefFaults, RefPairs, Acyclic, ReferenceCycle, Twice, DuplicateKeyFault, Union;
    KeysTold(defs, d);
    SelfRefsTold(defs, d);
    SetCyclesTold(defs);
  }
}
