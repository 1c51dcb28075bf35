/** Structural validation of graphs, documents, definitions and definition sets: quantize/validation/structural.py. */
module Validation {
  import opened Collections
  import opened Cycles
  import opened Diagnostics
  import opened Documents
  import opened Planning

  /* ---- per-item findings ---- */

  function DuplicateIdFault(nodes: seq<Node>, i: nat): Findings
    requires i < |nodes|
  {
    if nodes[i].id in NodeIds(nodes[..i]) then {Fault(DuplicateNodeId, nodes[i].id)} else {}
  }

  function UndeclaredRefFault(declared: set<RefId>, n: Node): Findings {
    if n.Component? && n.ref !in declared then {Fault(UnknownComponentRef, n.ref)} else {}
  }

  function EdgeFault(ids: set<NodeId>, e: Edge): Findings {
    (if e.src !in ids then {Fault(EdgeEndpointUnknownNode, e.src)} else {})
    + (if e.dst !in ids then {Fault(EdgeEndpointUnknownNode, e.dst)} else {})
    + (if e.src == e.dst then {Fault(SelfEdge, e.src)} else {})
  }

  /** Only well-formed, non-self edges take part in cycle detection. */
  function InnerPairs(ids: set<NodeId>, edges: seq<Edge>): (r: Pairs)
    ensures forall a, b :: (a, b) in r ==> (a, b) in EdgePairs(edges) && a in ids && b in ids && a != b
  {
    set p | p in EdgePairs(edges) && p.0 in ids && p.1 in ids && p.0 != p.1
  }

  ghost function CycleFault(code: Code, pairs: Pairs): Findings {
    if Acyclic(pairs) then {} else {Fault(code, 0)}
  }

  function DuplicateIdFaults(nodes: seq<Node>): Findings {
    Union(seq(|nodes|, i requires 0 <= i < |nodes| => DuplicateIdFault(nodes, i)))
  }

  function UndeclaredRefFaults(declared: set<RefId>, nodes: seq<Node>): Findings {
    Union(seq(|nodes|, i requires 0 <= i < |nodes| => UndeclaredRefFault(declared, nodes[i])))
  }

  function EdgeFaults(ids: set<NodeId>, edges: seq<Edge>): Findings {
    Union(seq(|edges|, i requires 0 <= i < |edges| => EdgeFault(ids, edges[i])))
  }

  /** Everything wrong with one graph; the representative node of a cycle is not part of the finding. */
  ghost function GraphFaults(g: Graph, declared: set<RefId>): Findings {
    DuplicateIdFaults(g.nodes) + UndeclaredRefFaults(declared, g.nodes) + EdgeFaults(NodeIds(g.nodes), g.edges)
    + CycleFault(GraphCycle, InnerPairs(NodeIds(g.nodes), g.edges))
  }

  /** A well-formed graph. */
  ghost predicate GraphOk(g: Graph, declared: set<RefId>) {
    && UniqueIds(g.nodes)
    && (forall n :: n in g.nodes && n.Component? ==> n.ref in declared)
    && Within(EdgePairs(g.edges), NodeIds(g.nodes))
    && Acyclic(EdgePairs(g.edges))
  }

  lemma NotSeenBefore(nodes: seq<Node>, i: nat)
    requires UniqueIds(nodes) && i < |nodes|
    ensures nodes[i].id !in NodeIds(nodes[..i])
  {
    forall m | m in nodes[..i] ensures m.id != nodes[i].id {
      var j :| 0 <= j < i && nodes[j] == m;
    }
  }

  lemma DuplicateIdsNone(nodes: seq<Node>)
    ensures DuplicateIdFaults(nodes) == {} <==> UniqueIds(nodes)
  {
    var rs := seq(|nodes|, i requires 0 <= i < |nodes| => DuplicateIdFault(nodes, i));
    UnionEmpty(rs);
    if UniqueIds(nodes) {
      forall i | 0 <= i < |nodes| ensures rs[i] == {} {
        NotSeenBefore(nodes, i);
      }
    }
    if DuplicateIdFaults(nodes) == {} {
      forall i, j | 0 <= i < j < |nodes| ensures nodes[i].id != nodes[j].id {
        assert rs[j] == {};
        var n := nodes[i];
        assert n == nodes[..j][i];
        assert n in nodes[..j];
      }
    }
  }

  lemma UndeclaredRefsNone(declared: set<RefId>, nodes: seq<Node>)
    ensures UndeclaredRefFaults(declared, nodes) == {} <==> forall n :: n in nodes && n.Component? ==> n.ref in declared
  {
    var rs := seq(|nodes|, i requires 0 <= i < |nodes| => UndeclaredRefFault(declared, nodes[i]));
    UnionEmpty(rs);
    if UndeclaredRefFaults(declared, nodes) == {} {
      forall n | n in nodes && n.Component? ensures n.ref in declared {
        var i :| 0 <= i < |nodes| && nodes[i] == n;
        assert rs[i] == {};
      }
    }
  }

  ghost predicate EdgeWellFormed(ids: set<NodeId>, e: Edge) {
    e.src in ids && e.dst in ids && e.src != e.dst
  }

  lemma EdgesNone(ids: set<NodeId>, edges: seq<Edge>)
    ensures EdgeFaults(ids, edges) == {} <==> forall e :: e in edges ==> EdgeWellFormed(ids, e)
  {
    var rs := seq(|edges|, i requires 0 <= i < |edges| => EdgeFault(ids, edges[i]));
    UnionEmpty(rs);
    if forall e :: e in edges ==> EdgeWellFormed(ids, e) {
      forall i | 0 <= i < |edges| ensures rs[i] == {} {
        var e := edges[i];
        assert e in edges;
      }
    }
    if EdgeFaults(ids, edges) == {} {
      forall e | e in edges ensures EdgeWellFormed(ids, e) {
        var i :| 0 <= i < |edges| && edges[i] == e;
        assert rs[i] == {};
        assert Fault(SelfEdge, e.src) !in rs[i];
        assert Fault(EdgeEndpointUnknownNode, e.src) !in rs[i];
        assert Fault(EdgeEndpointUnknownNode, e.dst) !in rs[i];
      }
    }
  }

  lemma SelfLoopIsCycle(pairs: Pairs, a: NodeId)
    requires (a, a) in pairs
    ensures !Acyclic(pairs)
  {
    assert ClosedWalk(pairs, [a, a]);
  }

  /** Validation finds nothing exactly on well-formed graphs. */
  lemma GraphFaultsNone(g: Graph, declared: set<RefId>)
    ensures GraphFaults(g, declared) == {} <==> GraphOk(g, declared)
  {
    hide DuplicateIdFaults, UndeclaredRefFaults, EdgeFaults, UniqueIds, Acyclic, NodeIds;
    DuplicateIdsNone(g.nodes);
    UndeclaredRefsNone(declared, g.nodes);
    var ids := NodeIds(g.nodes);
    EdgesNone(ids, g.edges);
    var pairs := EdgePairs(g.edges);
    if forall e :: e in g.edges ==> EdgeWellFormed(ids, e) {
      assert InnerPairs(ids, g.edges) == pairs;
    }
    if Within(pairs, ids) && Acyclic(pairs) {
      forall e | e in g.edges ensures EdgeWellFormed(ids, e) {
        assert (e.src, e.dst) in pairs;
        if e.src == e.dst { SelfLoopIsCycle(pairs, e.src); }
      }
    }
    if forall e :: e in g.edges ==> EdgeWellFormed(ids, e) {
      forall a, b | (a, b) in pairs ensures a in ids && b in ids {
        var e :| e in g.edges && (a, b) == (e.src, e.dst);
      }
    }
  }

  /* ---- the loops ---- */

  /** Lines 98-118 and 125-128. */
  method CheckNodes(nodes: seq<Node>, declared: set<RefId>) returns (faults: Findings)
    ensures faults == DuplicateIdFaults(nodes) + UndeclaredRefFaults(declared, nodes)
  {
    hide Union, NodeIds;
    ghost var dups := seq(|nodes|, i requires 0 <= i < |nodes| => DuplicateIdFault(nodes, i));
    ghost var refs := seq(|nodes|, i requires 0 <= i < |nodes| => UndeclaredRefFault(declared, nodes[i]));
    var found: Findings := {};
    var known: set<NodeId> := {};
    EmptyPrefix(dups, nodes);
    for i := 0 to |nodes|
      invariant known == NodeIds(nodes[..i])
      invariant found == Union(dups[..i])
    {
      KnownSnoc(nodes, i);
      UnionSnoc(dups, i);
      if nodes[i].id in known {
        found := found + {Fault(DuplicateNodeId, nodes[i].id)};
      }
      known := known + {nodes[i].id};
    }
    faults := {};
    EmptyPrefix(refs, nodes);
    for i := 0 to |nodes|
      invariant faults == Union(refs[..i])
    {
      UnionSnoc(refs, i);
      if nodes[i].Component? && nodes[i].ref !in declared {
        faults := faults + {Fault(UnknownComponentRef, nodes[i].ref)};
      }
    }
    WholePrefix(dups);
    WholePrefix(refs);
    faults := found + faults;
  }

  lemma EmptyPrefix(rs: seq<Findings>, nodes: seq<Node>)
    ensures Union(rs[..0]) == {} && NodeIds(nodes[..0]) == {}
  {
  }

  lemma WholePrefix(rs: seq<Findings>)
    ensures Union(rs[..|rs|]) == Union(rs)
  {
    assert rs[..|rs|] == rs;
  }

  lemma KnownSnoc(nodes: seq<Node>, i: nat)
    requires i < |nodes|
    ensures NodeIds(nodes[..i + 1]) == NodeIds(nodes[..i]) + {nodes[i].id}
  {
    var last := nodes[i];
    assert nodes[..i + 1] == nodes[..i] + [last];
  }

  ghost predicate AdjacencyOf(adj: map<NodeId, seq<NodeId>>, ids: set<NodeId>, edges: seq<Edge>) {
    && adj.Keys == ids
    && forall a, b :: a in ids ==> (b in adj[a] <==> (a, b) in InnerPairs(ids, edges))
  }

  lemma AdjacencySnoc(adj: map<NodeId, seq<NodeId>>, ids: set<NodeId>, edges: seq<Edge>, e: Edge)
    requires AdjacencyOf(adj, ids, edges)
    ensures AdjacencyOf(if EdgeWellFormed(ids, e) then adj[e.src := adj[e.src] + [e.dst]] else adj, ids, edges + [e])
  {
    forall a, b ensures (a, b) in EdgePairs(edges + [e]) <==> (a, b) in EdgePairs(edges) || (a, b) == (e.src, e.dst) {
      if (a, b) in EdgePairs(edges) {
        var x :| x in edges && (a, b) == (x.src, x.dst);
        assert x in edges + [e];
      }
      assert e in edges + [e];
    }
  }

  /** Lines 123-167: endpoint and self-edge findings, and the adjacency of the remaining edges. */
  method CheckEdges(ids: set<NodeId>, edges: seq<Edge>) returns (faults: Findings, adj: map<NodeId, seq<NodeId>>)
    ensures faults == EdgeFaults(ids, edges) && AdjacencyOf(adj, ids, edges)
  {
    hide Union, AdjacencyOf;
    ghost var rs := seq(|edges|, i requires 0 <= i < |edges| => EdgeFault(ids, edges[i]));
    faults := {};
    adj := map n | n in ids :: [];
    EmptyPrefix(rs, []);
    NoEdges(adj, ids);
    for i := 0 to |edges|
      invariant adj.Keys == ids && AdjacencyOf(adj, ids, edges[..i])
      invariant faults == Union(rs[..i])
    {
      var edge := edges[i];
      UnionSnoc(rs, i);
      AdjacencySnoc(adj, ids, edges[..i], edge);
      assert edges[..i + 1] == edges[..i] + [edge];
      if edge.src !in ids {
        faults := faults + {Fault(EdgeEndpointUnknownNode, edge.src)};
      }
      if edge.dst !in ids {
        faults := faults + {Fault(EdgeEndpointUnknownNode, edge.dst)};
      }
      if edge.src == edge.dst {
        faults := faults + {Fault(SelfEdge, edge.src)};
      } else if edge.src in ids && edge.dst in ids {
        adj := adj[edge.src := adj[edge.src] + [edge.dst]];
      }
    }
    WholePrefix(rs);
    assert edges[..|edges|] == edges;
  }

  lemma NoEdges(adj: map<NodeId, seq<NodeId>>, ids: set<NodeId>)
    requires adj == map n | n in ids :: []
    ensures AdjacencyOf(adj, ids, [])
  {
  }

  lemma AdjacencyPairs(adj: map<NodeId, seq<NodeId>>, ids: set<NodeId>, edges: seq<Edge>)
    requires AdjacencyOf(adj, ids, edges)
    ensures PairsOf(adj) == InnerPairs(ids, edges)
    ensures forall a, n :: a in adj && n in adj[a] ==> n in adj
  {
    forall a, b ensures (a, b) in PairsOf(adj) <==> (a, b) in InnerPairs(ids, edges) { }
  }

  /** `_validate_graph`. */
  method ValidateGraph(g: Graph, declared: set<RefId>) returns (faults: Findings)
    ensures faults == GraphFaults(g, declared)
  {
    hide Union, DuplicateIdFaults, UndeclaredRefFaults, EdgeFaults, AdjacencyOf, Acyclic, NodeIds;
    var nodeFaults := CheckNodes(g.nodes, declared);
    var edgeFaults, adj := CheckEdges(NodeIds(g.nodes), g.edges);
    AdjacencyPairs(adj, NodeIds(g.nodes), g.edges);
    var cycle := FindCycle(adj);
    faults := nodeFaults + edgeFaults;
    if cycle.Some? {
      faults := faults + {Fault(GraphCycle, 0)};
    }
  }

  /* ---- documents and definitions ---- */

  function DuplicateRefFault(refs: seq<ComponentRef>, i: nat): Findings
    requires i < |refs|
  {
    if exists j :: 0 <= j < i && refs[j].id == refs[i].id then {Fault(DuplicateRefId, refs[i].id)} else {}
  }

  function DuplicateRefFaults(refs: seq<ComponentRef>): Findings {
    Union(seq(|refs|, i requires 0 <= i < |refs| => DuplicateRefFault(refs, i)))
  }

  function RefIds(refs: seq<ComponentRef>): set<RefId> {
    set r | r in refs :: r.id
  }

  method CheckRefs(refs: seq<ComponentRef>) returns (faults: Findings)
    ensures faults == DuplicateRefFaults(refs)
  {
    hide Union;
    ghost var rs := seq(|refs|, i requires 0 <= i < |refs| => DuplicateRefFault(refs, i));
    faults := {};
    EmptyPrefix(rs, []);
    var seen: set<RefId> := {};
    for i := 0 to |refs|
      invariant faults == Union(rs[..i])
      invariant forall x :: x in seen <==> exists j :: 0 <= j < i && refs[j].id == x
    {
      UnionSnoc(rs, i);
      if refs[i].id in seen {
        faults := faults + {Fault(DuplicateRefId, refs[i].id)};
      }
      seen := seen + {refs[i].id};
    }
    WholePrefix(rs);
  }

  function SchemaFaults(supported: bool): Findings {
    if supported then {} else {Fault(UnsupportedSchemaVersion, 0)}
  }

  ghost function DocumentFaults(doc: Document): Findings {
    SchemaFaults(doc.schemaSupported) + DuplicateRefFaults(doc.refs) + GraphFaults(doc.graph, RefIds(doc.refs))
  }

  /** `validate_strategy_document`. */
  method ValidateDocument(doc: Document) returns (faults: Findings)
    ensures faults == DocumentFaults(doc)
  {
    hide GraphFaults, DuplicateRefFaults;
    var refFaults := CheckRefs(doc.refs);
    var graphFaults := ValidateGraph(doc.graph, RefIds(doc.refs));
    return SchemaFaults(doc.schemaSupported) + refFaults + graphFaults;
  }

  function SelfRefFaults(d: Definition): Findings {
    if exists i :: 0 <= i < |d.refs| && d.refs[i].key == d.key then {Fault(ComponentDirectRecursion, d.key)} else {}
  }

  ghost function DefinitionFaults(d: Definition): Findings {
    SchemaFaults(d.schemaSupported) + DuplicateRefFaults(d.refs) + SelfRefFaults(d) + GraphFaults(d.graph, RefIds(d.refs))
  }

  /** `validate_component_definition`. */
  method ValidateDefinition(d: Definition) returns (faults: Findings)
    ensures faults == DefinitionFaults(d)
  {
    hide GraphFaults, DuplicateRefFaults;
    var refFaults := CheckRefs(d.refs);
    var selfFaults: Findings := {};
    for i := 0 to |d.refs|
      invariant selfFaults == if exists k :: 0 <= k < i && d.refs[k].key == d.key then {Fault(ComponentDirectRecursion, d.key)} else {}
    {
      if d.refs[i].key == d.key {
        selfFaults := selfFaults + {Fault(ComponentDirectRecursion, d.key)};
      }
    }
    var graphFaults := ValidateGraph(d.graph, RefIds(d.refs));
    return SchemaFaults(d.schemaSupported) + refFaults + selfFaults + graphFaults;
  }

  /* ---- definition sets ---- */

  function Supplied(defs: seq<Definition>): (r: set<ComponentKey>)
    ensures forall d :: d in defs ==> d.key in r
  {
    set i | 0 <= i < |defs| :: defs[i].key
  }

  /** The dependency graph within the supplied set; direct recursion is reported by itself. */
  ghost predicate DependsOn(defs: seq<Definition>, a: ComponentKey, b: ComponentKey) {
    a != b && b in Supplied(defs) && exists d: Definition, r :: d in defs && d.key == a && r in d.refs && r.key == b
  }

  function RefPairs(defs: seq<Definition>): (p: Pairs)
    ensures forall a, b :: (a, b) in p <==> DependsOn(defs, a, b)
  {
    var p := set i, k | 0 <= i < |defs| && 0 <= k < |defs[i].refs| && defs[i].refs[k].key != defs[i].key
                        && defs[i].refs[k].key in Supplied(defs) :: (defs[i].key, defs[i].refs[k].key);
    assert forall a, b :: (a, b) in p ==> DependsOn(defs, a, b);
    assert forall a, b :: DependsOn(defs, a, b) ==> (a, b) in p;
    p
  }

  function DuplicateKeyFault(defs: seq<Definition>, i: nat): Findings
    requires i < |defs|
  {
    if exists j :: 0 <= j < i && defs[j].key == defs[i].key then {Fault(DuplicateComponentDefinition, defs[i].key)} else {}
  }

  ghost function SetFaults(defs: seq<Definition>): Findings {
    Union(seq(|defs|, i requires 0 <= i < |defs| => DuplicateKeyFault(defs, i)))
    + Union(seq(|defs|, i requires 0 <= i < |defs| => SelfRefFaults(defs[i])))
    + CycleFault(ComponentCycle, RefPairs(defs))
  }

  ghost predicate SetOk(defs: seq<Definition>) {
    && (forall i, j :: 0 <= i < j < |defs| ==> defs[i].key != defs[j].key)
    && (forall d: Definition, r :: d in defs && r in d.refs ==> r.key != d.key)
    && Acyclic(RefPairs(defs))
  }

  lemma DuplicateKeysNone(defs: seq<Definition>)
    ensures Union(seq(|defs|, i requires 0 <= i < |defs| => DuplicateKeyFault(defs, i))) == {}
      <==> forall i, j :: 0 <= i < j < |defs| ==> defs[i].key != defs[j].key
  {
    var rs := seq(|defs|, i requires 0 <= i < |defs| => DuplicateKeyFault(defs, i));
    UnionEmpty(rs);
    if Union(rs) == {} {
      forall i, j | 0 <= i < j < |defs| ensures defs[i].key != defs[j].key {
        assert rs[j] == {};
      }
    }
  }

  lemma SelfRefsNone(defs: seq<Definition>)
    ensures Union(seq(|defs|, i requires 0 <= i < |defs| => SelfRefFaults(defs[i]))) == {}
      <==> forall d: Definition, r :: d in defs && r in d.refs ==> r.key != d.key
  {
    var rs := seq(|defs|, i requires 0 <= i < |defs| => SelfRefFaults(defs[i]));
    UnionEmpty(rs);
    if Union(rs) == {} {
      forall d: Definition, r | d in defs && r in d.refs ensures r.key != d.key {
        var i :| 0 <= i < |defs| && defs[i] == d;
        var k :| 0 <= k < |d.refs| && d.refs[k] == r;
        assert rs[i] == {};
        assert Fault(ComponentDirectRecursion, d.key) !in rs[i];
      }
    }
    if forall d: Definition, r :: d in defs && r in d.refs ==> r.key != d.key {
      forall i | 0 <= i < |defs| ensures rs[i] == {} {
        var d := defs[i];
        assert d in defs;
        forall k | 0 <= k < |d.refs| ensures d.refs[k].key != d.key {
          var r := d.refs[k];
          assert r in d.refs;
        }
      }
    }
  }

  /** A definition set passes exactly when no definition reaches itself through the set. */
  lemma SetFaultsNone(defs: seq<Definition>)
    ensures SetFaults(defs) == {} <==> SetOk(defs)
  {
    hide Union, RefPairs, Acyclic, SelfRefFaults, DuplicateKeyFault;
    DuplicateKeysNone(defs);
    SelfRefsNone(defs);
  }

  method CheckKeys(defs: seq<Definition>) returns (faults: Findings)
    ensures faults == Union(seq(|defs|, i requires 0 <= i < |defs| => DuplicateKeyFault(defs, i)))
  {
    hide Union;
    ghost var dups := seq(|defs|, i requires 0 <= i < |defs| => DuplicateKeyFault(defs, i));
    faults := {};
    var seen: set<ComponentKey> := {};
    EmptyPrefix(dups, []);
    for i := 0 to |defs|
      invariant faults == Union(dups[..i])
      invariant forall x :: x in seen <==> exists j :: 0 <= j < i && defs[j].key == x
    {
      UnionSnoc(dups, i);
      if defs[i].key in seen {
        faults := faults + {Fault(DuplicateComponentDefinition, defs[i].key)};
      }
      seen := seen + {defs[i].key};
    }
    WholePrefix(dups);
  }

  ghost predicate RefersTo(refs: seq<ComponentRef>, b: ComponentKey) {
    exists k :: 0 <= k < |refs| && refs[k].key == b
  }

  lemma NothingReferred(refs: seq<ComponentRef>)
    requires refs == []
    ensures forall x :: !RefersTo(refs, x)
  {
  }

  lemma RefersSnoc(refs: seq<ComponentRef>, k: nat, b: ComponentKey)
    requires k < |refs|
    ensures RefersTo(refs[..k + 1], b) <==> RefersTo(refs[..k], b) || refs[k].key == b
  {
    var longer, shorter := refs[..k + 1], refs[..k];
    assert longer[k] == refs[k];
    if RefersTo(shorter, b) {
      var j :| 0 <= j < k && shorter[j].key == b;
      assert longer[j].key == b;
    }
    if RefersTo(longer, b) {
      var j :| 0 <= j < k + 1 && longer[j].key == b;
      if j < k { assert shorter[j].key == b; }
    }
  }

  /** adj is adj0 with the references refs of key added, as far as they stay in the set and are not to itself. */
  ghost predicate RefsAdded(adj: map<ComponentKey, seq<ComponentKey>>, adj0: map<ComponentKey, seq<ComponentKey>>,
                            supplied: set<ComponentKey>, key: ComponentKey, refs: seq<ComponentRef>) {
    adj.Keys == supplied && adj0.Keys == supplied && key in supplied
    && forall a, b :: a in supplied ==> (b in adj[a] <==> b in adj0[a] || Adds(supplied, key, refs, a, b))
  }

  ghost predicate Adds(supplied: set<ComponentKey>, key: ComponentKey, refs: seq<ComponentRef>, a: ComponentKey, b: ComponentKey) {
    a == key && b != a && b in supplied && RefersTo(refs, b)
  }

  lemma NothingAdded(adj: map<ComponentKey, seq<ComponentKey>>, supplied: set<ComponentKey>, key: ComponentKey, refs: seq<ComponentRef>)
    requires adj.Keys == supplied && key in supplied && refs == []
    ensures RefsAdded(adj, adj, supplied, key, refs)
  {
  }

  lemma OneAdded(adj: map<ComponentKey, seq<ComponentKey>>, adj': map<ComponentKey, seq<ComponentKey>>,
                 adj0: map<ComponentKey, seq<ComponentKey>>, supplied: set<ComponentKey>, key: ComponentKey,
                 refs: seq<ComponentRef>, k: nat)
    requires k < |refs| && RefsAdded(adj, adj0, supplied, key, refs[..k])
    requires adj' == if refs[k].key != key && refs[k].key in supplied then adj[key := adj[key] + [refs[k].key]] else adj
    ensures RefsAdded(adj', adj0, supplied, key, refs[..k + 1])
  {
    var target := refs[k].key;
    forall a, b | a in supplied ensures b in adj'[a] <==> b in adj0[a] || Adds(supplied, key, refs[..k + 1], a, b) {
      hide RefersTo;
      RefersSnoc(refs, k, b);
      assert b in adj[a] <==> b in adj0[a] || Adds(supplied, key, refs[..k], a, b);
      if a != key { assert adj'[a] == adj[a]; }
    }
  }

  /** Lines 312-327 for one definition. */
  method AddRefs(d: Definition, supplied: set<ComponentKey>, adj0: map<ComponentKey, seq<ComponentKey>>, unresolved0: set<ComponentKey>)
    returns (flagged: Findings, adj: map<ComponentKey, seq<ComponentKey>>, unresolved: set<ComponentKey>)
    requires d.key in supplied && adj0.Keys == supplied
    ensures flagged == SelfRefFaults(d) && adj.Keys == supplied && RefsAdded(adj, adj0, supplied, d.key, d.refs)
    ensures forall x :: x in unresolved <==> x in unresolved0 || (x !in supplied && RefersTo(d.refs, x))
  {
    hide RefersTo, RefsAdded;
    adj, flagged, unresolved := adj0, {}, unresolved0;
    NothingAdded(adj, supplied, d.key, d.refs[..0]);
    assert forall x :: !RefersTo(d.refs[..0], x) by { NothingReferred(d.refs[..0]); }
    for k := 0 to |d.refs|
      invariant forall x :: x in unresolved <==> x in unresolved0 || (x !in supplied && RefersTo(d.refs[..k], x))
      invariant flagged == if exists j :: 0 <= j < k && d.refs[j].key == d.key then {Fault(ComponentDirectRecursion, d.key)} else {}
      invariant adj.Keys == supplied && RefsAdded(adj, adj0, supplied, d.key, d.refs[..k])
    {
      var target := d.refs[k].key;
      ghost var before := adj;
      if target == d.key {
        flagged := {Fault(ComponentDirectRecursion, d.key)};
      } else if target in supplied {
        adj := adj[d.key := adj[d.key] + [target]];
      } else {
        unresolved := unresolved + {target};
      }
      OneAdded(before, adj, adj0, supplied, d.key, d.refs, k);
      forall x ensures RefersTo(d.refs[..k + 1], x) <==> RefersTo(d.refs[..k], x) || target == x {
        RefersSnoc(d.refs, k, x);
      }
    }
    assert d.refs[..|d.refs|] == d.refs;
  }

  /** The adjacency of the first n definitions. */
  ghost predicate SetAdjacency(adj: map<ComponentKey, seq<ComponentKey>>, defs: seq<Definition>, n: nat)
    requires n <= |defs|
  {
    adj.Keys == Supplied(defs) && forall a, b :: a in adj ==> (b in adj[a] <==>
      a != b && b in Supplied(defs) && DefinesRef(defs, n, a, b))
  }

  ghost predicate DefinesRef(defs: seq<Definition>, n: nat, a: ComponentKey, b: ComponentKey)
    requires n <= |defs|
  {
    exists i :: 0 <= i < n && defs[i].key == a && RefersTo(defs[i].refs, b)
  }

  lemma NoDefinitions(defs: seq<Definition>, adj: map<ComponentKey, seq<ComponentKey>>)
    requires adj == map k | k in Supplied(defs) :: []
    ensures SetAdjacency(adj, defs, 0)
  {
  }

  lemma SetAdjacencyStep(before: map<ComponentKey, seq<ComponentKey>>, after: map<ComponentKey, seq<ComponentKey>>, defs: seq<Definition>, n: nat)
    requires n < |defs| && SetAdjacency(before, defs, n)
    requires RefsAdded(after, before, Supplied(defs), defs[n].key, defs[n].refs)
    ensures SetAdjacency(after, defs, n + 1)
  {
    hide RefersTo, Supplied;
    forall a, b ensures DefinesRef(defs, n + 1, a, b) <==> DefinesRef(defs, n, a, b) || (a == defs[n].key && RefersTo(defs[n].refs, b)) {
      if DefinesRef(defs, n, a, b) {
        var i :| 0 <= i < n && defs[i].key == a && RefersTo(defs[i].refs, b);
      }
    }
  }

  lemma DependsByIndex(defs: seq<Definition>, a: ComponentKey, b: ComponentKey)
    ensures DependsOn(defs, a, b) <==> a != b && b in Supplied(defs) && DefinesRef(defs, |defs|, a, b)
  {
    if DependsOn(defs, a, b) {
      var d: Definition, r :| d in defs && d.key == a && r in d.refs && r.key == b;
      var i :| 0 <= i < |defs| && defs[i] == d;
      var k :| 0 <= k < |d.refs| && d.refs[k] == r;
      assert RefersTo(defs[i].refs, b);
    }
    if a != b && b in Supplied(defs) && DefinesRef(defs, |defs|, a, b) {
      var i :| 0 <= i < |defs| && defs[i].key == a && RefersTo(defs[i].refs, b);
      var k :| 0 <= k < |defs[i].refs| && defs[i].refs[k].key == b;
      var d, r := defs[i], defs[i].refs[k];
      assert d in defs && r in d.refs;
    }
  }

  lemma SetAdjacencyPairs(adj: map<ComponentKey, seq<ComponentKey>>, defs: seq<Definition>)
    requires SetAdjacency(adj, defs, |defs|)
    ensures PairsOf(adj) == RefPairs(defs)
    ensures forall a, n :: a in adj && n in adj[a] ==> n in adj
  {
    hide DependsOn, DefinesRef;
    forall a, b ensures (a, b) in PairsOf(adj) <==> (a, b) in RefPairs(defs) {
      DependsByIndex(defs, a, b);
      DefinesSupplied(defs, a, b);
    }
  }

  lemma DefinesSupplied(defs: seq<Definition>, a: ComponentKey, b: ComponentKey)
    ensures DefinesRef(defs, |defs|, a, b) ==> a in Supplied(defs)
  {
  }

  /** What the set refers to outside itself: dependencies that are left to be resolved elsewhere. */
  function UnresolvedRefs(defs: seq<Definition>): (r: set<ComponentKey>)
    ensures forall x :: x in r <==> x !in Supplied(defs) && exists d: Definition, ref :: d in defs && ref in d.refs && ref.key == x
  {
    var r := set i, k | 0 <= i < |defs| && 0 <= k < |defs[i].refs| && defs[i].refs[k].key !in Supplied(defs) :: defs[i].refs[k].key;
    assert forall x :: x in r ==> exists d: Definition, ref :: d in defs && ref in d.refs && ref.key == x;
    forall d: Definition, ref | d in defs && ref in d.refs && ref.key !in Supplied(defs) ensures ref.key in r {
      var i :| 0 <= i < |defs| && defs[i] == d;
      var k :| 0 <= k < |d.refs| && d.refs[k] == ref;
      assert defs[i].refs[k].key == ref.key;
    }
    r
  }

  ghost predicate Refers(defs: seq<Definition>, n: nat, x: ComponentKey)
    requires n <= |defs|
  {
    exists i :: 0 <= i < n && RefersTo(defs[i].refs, x)
  }

  lemma AllReferred(defs: seq<Definition>, x: ComponentKey)
    ensures x in UnresolvedRefs(defs) <==> x !in Supplied(defs) && Refers(defs, |defs|, x)
  {
    hide Supplied;
    if Refers(defs, |defs|, x) {
      var i :| 0 <= i < |defs| && RefersTo(defs[i].refs, x);
      var k :| 0 <= k < |defs[i].refs| && defs[i].refs[k].key == x;
      assert defs[i] in defs && defs[i].refs[k] in defs[i].refs;
    }
    if x in UnresolvedRefs(defs) {
      var d: Definition, ref :| d in defs && ref in d.refs && ref.key == x;
      var i :| 0 <= i < |defs| && defs[i] == d;
      var k :| 0 <= k < |d.refs| && d.refs[k] == ref;
      assert RefersTo(defs[i].refs, x);
    }
  }

  lemma ReferSnoc(defs: seq<Definition>, n: nat, x: ComponentKey)
    requires n < |defs|
    ensures Refers(defs, n + 1, x) <==> Refers(defs, n, x) || RefersTo(defs[n].refs, x)
  {
    hide RefersTo;
  }

  /** Lines 306-327: direct recursion, the dependency adjacency of the set, and the references outside it. */
  method CheckDependencies(defs: seq<Definition>)
    returns (faults: Findings, adj: map<ComponentKey, seq<ComponentKey>>, unresolved: set<ComponentKey>)
    ensures unresolved == UnresolvedRefs(defs)
    ensures faults == Union(seq(|defs|, i requires 0 <= i < |defs| => SelfRefFaults(defs[i])))
    ensures SetAdjacency(adj, defs, |defs|)
  {
    hide Union, SetAdjacency, SelfRefFaults, RefsAdded, RefersTo, UnresolvedRefs;
    ghost var selfs := seq(|defs|, i requires 0 <= i < |defs| => SelfRefFaults(defs[i]));
    faults, unresolved := {}, {};
    var supplied := Supplied(defs);
    adj := map k | k in supplied :: [];
    EmptyPrefix(selfs, []);
    NoDefinitions(defs, adj);
    for i := 0 to |defs|
      invariant faults == Union(selfs[..i])
      invariant adj.Keys == supplied && SetAdjacency(adj, defs, i)
      invariant forall x :: x in unresolved <==> x !in supplied && Refers(defs, i, x)
    {
      UnionSnoc(selfs, i);
      assert defs[i] in defs;
      ghost var before := adj;
      var flagged;
      flagged, adj, unresolved := AddRefs(defs[i], supplied, adj, unresolved);
      SetAdjacencyStep(before, adj, defs, i);
      forall x ensures Refers(defs, i + 1, x) <==> Refers(defs, i, x) || RefersTo(defs[i].refs, x) {
        ReferSnoc(defs, i, x);
      }
      faults := faults + flagged;
    }
    WholePrefix(selfs);
    forall x ensures x in unresolved <==> x in UnresolvedRefs(defs) {
      AllReferred(defs, x);
    }
  }

  /** `validate_component_set`: duplicates, direct recursion and cycles over the supplied definitions, and the references it
      leaves unresolved. */
  method ValidateSet(defs: seq<Definition>) returns (faults: Findings, unresolved: set<ComponentKey>)
    ensures faults == SetFaults(defs) && unresolved == UnresolvedRefs(defs)
  {
    hide Union, Acyclic, SetAdjacency, RefPairs, UnresolvedRefs;
    var duplicates := CheckKeys(defs);
    var direct, adj;
    direct, adj, unresolved := CheckDependencies(defs);
    SetAdjacencyPairs(adj, defs);
    var cycle := FindCycle(adj);
    faults := duplicates + direct;
    if cycle.Some? {
      faults := faults + {Fault(ComponentCycle, 0)};
    }
  }
}
