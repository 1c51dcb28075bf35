/** Adding one definition that pins only known ones: closure, gates and instances of everything else stay as they were. */
module GroupedClosures {
  import opened Closure
  import opened Collections
  import opened Cycles
  import opened DefinitionChecks
  import opened Diagnostics
  import opened Documents
  import opened Evaluator
  import opened Grouping
  import opened Instantiation
  import opened Planning
  import opened Resolution
  import opened TreeWiring
  import opened Validation

  /* ---- the closure ---- */

  /** A new definition over a complete closure. */
  ghost predicate Addable(fetched: Definitions, d: Definition) {
    d.key !in fetched && KeysOf(d.refs) <= fetched.Keys
  }

  lemma ChainsStay(store: Definitions, roots: set<ComponentKey>, d: Definition, k: ComponentKey)
    requires d.key !in store && Reachable(store, roots, k)
    ensures Reachable(store[d.key := d], roots + {d.key}, k)
  {
    var store' := store[d.key := d];
    var w :| PinChain(store, roots, w) && w[|w| - 1] == k;
    forall i | 0 < i < |w| ensures Pins(store', w[i - 1], w[i]) {
      assert Pins(store, w[i - 1], w[i]);
    }
    assert PinChain(store', roots + {d.key}, w);
  }

  /** A store and roots that gain the definition gain it in the closure, and nothing else. */
  lemma ClosureGains(store: Definitions, roots: set<ComponentKey>, d: Definition)
    requires d.key !in store && KeysOf(d.refs) == roots && AbsentOf(store, roots) == {}
    ensures ClosureOf(store[d.key := d], roots + {d.key}) == ClosureOf(store, roots)[d.key := d]
    ensures AbsentOf(store[d.key := d], roots + {d.key}) == {}
    ensures Addable(ClosureOf(store, roots), d)
  {
    hide Reachable, KeysOf, Mentioned, ClosureOf, AbsentOf;
    var fetched, store', roots' := ClosureOf(store, roots), store[d.key := d], roots + {d.key};
    var fetched' := fetched[d.key := d];
    ClosedWhenComplete(store, roots, fetched);
    forall a, b | a in fetched'.Keys && Pins(store', a, b) ensures b in fetched'.Keys {
      if a != d.key {
        assert Pins(fetched, a, b);
        assert (a, b) in PinPairs(fetched);
      }
    }
    forall k ensures k in fetched' <==> k in store' && Reachable(store', roots', k) {
      if k in store' && Reachable(store', roots', k) {
        ReachableInside(store', roots', fetched'.Keys, k);
      }
      if k in fetched {
        ChainsStay(store, roots, d, k);
      }
      RootReachable(store', roots', d.key);
    }
    assert IsClosure(store', roots', fetched');
    ClosureUnique(store', roots', fetched', ClosureOf(store', roots'));
    forall k | Reachable(store', roots', k) ensures k in store' {
      ReachableInside(store', roots', fetched'.Keys, k);
    }
    NothingAbsent(store', roots');
  }

  lemma NothingAbsent(store: Definitions, roots: set<ComponentKey>)
    requires forall k :: Reachable(store, roots, k) ==> k in store
    ensures AbsentOf(store, roots) == {}
  {
    hide Reachable, Mentioned;
    assert forall k :: k !in AbsentOf(store, roots);
  }

  /* ---- the gates ---- */

  /** A node that nothing leads to lies on no cycle. */
  lemma SourceAcyclic(pairs: Pairs, more: Pairs, x: int)
    requires Acyclic(pairs) && (forall p :: p in more && p !in pairs ==> p.0 == x) && (forall p :: p in more ==> p.1 != x)
    ensures Acyclic(more)
  {
    forall w ensures !ClosedWalk(more, w) {
      assert !ClosedWalk(pairs, w);
      if ClosedWalk(more, w) {
        CycleAvoids(pairs, more, x, w);
      }
    }
  }

  lemma CycleAvoids(pairs: Pairs, more: Pairs, x: int, w: seq<int>)
    requires (forall p :: p in more && p !in pairs ==> p.0 == x) && (forall p :: p in more ==> p.1 != x)
    requires ClosedWalk(more, w)
    ensures ClosedWalk(pairs, w)
  {
    forall i | 0 <= i < |w| - 1 ensures (w[i], w[i + 1]) in pairs {
      assert (w[i], w[i + 1]) in more;
      if i == 0 {
        assert (w[|w| - 2], w[|w| - 1]) in more;
      } else {
        assert (w[i - 1], w[i]) in more;
      }
    }
  }

  lemma PinsGain(fetched: Definitions, d: Definition)
    requires KeyedByIdentity(fetched) && Addable(fetched, d) && Within(PinPairs(fetched), fetched.Keys) && Acyclic(PinPairs(fetched))
    ensures Within(PinPairs(fetched[d.key := d]), fetched[d.key := d].Keys) && Acyclic(PinPairs(fetched[d.key := d]))
  {
    hide KeysOf, Acyclic;
    var fetched' := fetched[d.key := d];
    forall a, b | (a, b) in PinPairs(fetched') ensures a in fetched' && b in fetched && ((a, b) in PinPairs(fetched) || a == d.key) {
      assert Pins(fetched', a, b);
      if a != d.key {
        assert Pins(fetched, a, b);
        assert (a, b) in PinPairs(fetched);
      }
    }
    SourceAcyclic(PinPairs(fetched), PinPairs(fetched'), d.key);
  }

  lemma SoundGains(fetched: Definitions, d: Definition)
    requires SoundClosure(fetched) && Addable(fetched, d) && GraphOk(d.graph, RefIds(d.refs))
    ensures SoundClosure(fetched[d.key := d])
  {
    hide GraphOk, Acyclic, Addable;
    PinsGain(fetched, d);
  }

  lemma ListedDistinct(fetched: Definitions)
    requires KeyedByIdentity(fetched)
    ensures forall i, j :: 0 <= i < j < |Listed(fetched)| ==> Listed(fetched)[i].key != Listed(fetched)[j].key
  {
    var keys, ds := Sorted(fetched.Keys), Listed(fetched);
    hide Listed, Sorted;
    forall i, j | 0 <= i < j < |ds| ensures ds[i].key != ds[j].key {
      assert ds[i] == fetched[keys[i]] && ds[j] == fetched[keys[j]];
      assert keys[i] < keys[j];
    }
  }

  /** A sound closure of acyclic pins is a valid set. */
  lemma SoundSet(fetched: Definitions)
    requires SoundClosure(fetched)
    ensures SetFaults(Listed(fetched)) == {}
  {
    hide GraphOk, Acyclic, Listed;
    var ds := Listed(fetched);
    SetFaultsNone(ds);
    ListedDistinct(fetched);
    ListedMembers(fetched);
    assert RefPairs(ds) <= PinPairs(fetched) by {
      forall a, b | (a, b) in RefPairs(ds) ensures (a, b) in PinPairs(fetched) {
        DependingPins(fetched, a, b);
      }
    }
    SubsetAcyclic(RefPairs(ds), PinPairs(fetched));
    forall e: Definition, r | e in ds && r in e.refs ensures r.key != e.key {
      var k :| k in fetched && fetched[k] == e;
      if r.key == e.key {
        var i :| 0 <= i < |e.refs| && e.refs[i] == r;
        assert Pins(fetched, k, k);
        SelfLoopIsCycle(PinPairs(fetched), k);
      }
    }
  }

  lemma InvalidSilent(ds: seq<Definition>)
    requires forall d: Definition :: d in ds ==> DefinitionFaults(d) == {}
    ensures InvalidFaults(ds) == {}
  {
    hide DefinitionFaults;
    assert forall i :: 0 <= i < |ds| ==> ds[i] in ds;
    UnionEmpty(seq(|ds|, i requires 0 <= i < |ds| => InvalidFault(ds[i])));
  }

  lemma SemanticsSilent(cat: Catalog, fetched: Definitions, ds: seq<Definition>)
    requires forall d: Definition :: d in ds ==> SemanticFaults(cat, fetched, d) == {}
    ensures AllSemanticFaults(cat, fetched, ds) == {}
  {
    hide SemanticFaults;
    assert forall i :: 0 <= i < |ds| ==> ds[i] in ds;
    UnionEmpty(seq(|ds|, i requires 0 <= i < |ds| => SemanticFaults(cat, fetched, ds[i])));
  }

  lemma GatesOpen(cat: Catalog, fetched: Definitions)
    requires SoundClosure(fetched) && AllClean(cat, fetched) && forall k :: k in fetched ==> DefinitionFaults(fetched[k]) == {}
    ensures GateFaults(cat, fetched, {}) == {}
  {
    hide SoundClosure, SemanticFaults, DefinitionFaults, SetFaults, Listed, InvalidFaults, AllSemanticFaults;
    var ds := Listed(fetched);
    SoundSet(fetched);
    ListedMembers(fetched);
    forall d: Definition | d in ds ensures DefinitionFaults(d) == {} && SemanticFaults(cat, fetched, d) == {} {
      var k :| k in fetched && fetched[k] == d;
    }
    InvalidSilent(ds);
    SemanticsSilent(cat, fetched, ds);
    var none: set<ComponentKey> := {};
    assert AbsentFaults(none) == {};
  }

  /** The other definitions are checked against the same nested ones. */
  lemma SameNested(fetched: Definitions, d: Definition, refs: seq<ComponentRef>, nodes: seq<Node>)
    requires d.key !in KeysOf(refs)
    ensures NestedDefinitions(refs, fetched[d.key := d], nodes) == NestedDefinitions(refs, fetched, nodes)
  {
    hide KeysOf;
    var a, b := NestedDefinitions(refs, fetched[d.key := d], nodes), NestedDefinitions(refs, fetched, nodes);
    forall id ensures Get(a, id) == Get(b, id) {
      if id in NodeIds(nodes) {
        var n := NodeOf(nodes, id);
        if NestedKey(refs, n).Some? {
          RefKeyIn(refs, n.ref);
        }
      }
    }
    SameMaps(a, b);
  }

  lemma RefKeyIn(refs: seq<ComponentRef>, ref: RefId)
    requires RefKey(refs, ref).Some?
    ensures RefKey(refs, ref).value in KeysOf(refs)
  {
  }

  lemma OthersStayClean(cat: Catalog, fetched: Definitions, d: Definition)
    requires SoundClosure(fetched) && Addable(fetched, d) && AllClean(cat, fetched)
    ensures forall k :: k in fetched ==> SemanticFaults(cat, fetched[d.key := d], fetched[k]) == {}
  {
    hide SemanticFaultsUnder, NestedDefinitions, GraphOk, Acyclic;
    forall k | k in fetched ensures SemanticFaults(cat, fetched[d.key := d], fetched[k]) == {} {
      assert (k, d.key) !in PinPairs(fetched);
      assert !Pins(fetched, k, d.key);
      SameNested(fetched, d, fetched[k].refs, fetched[k].graph.nodes);
      assert SemanticFaults(cat, fetched, fetched[k]) == {};
    }
  }

  /* ---- the instances ---- */

  lemma SameNestedKey(fetched: Definitions, d: Definition, key: ComponentKey, id: NodeId)
    requires SoundClosure(fetched) && SoundClosure(fetched[d.key := d]) && d.key !in fetched
    requires key in fetched && id in ComponentNodes(fetched[key].graph.nodes)
    ensures KeyOfNested(fetched[d.key := d], key, id) == KeyOfNested(fetched, key, id)
  {
    hide SoundClosure, Height;
  }

  lemma {:induction false} SameInstance(fetched: Definitions, d: Definition, key: ComponentKey, provided: Params)
    requires SoundClosure(fetched) && SoundClosure(fetched[d.key := d]) && d.key !in fetched && key in fetched
    ensures Instantiate(fetched[d.key := d], key, provided) == Instantiate(fetched, key, provided)
    decreases Height(fetched, key)
  {
    hide SoundClosure, Height, EffectiveParams, KeyOfNested;
    var fetched' := fetched[d.key := d];
    var a, b := Instantiate(fetched', key, provided), Instantiate(fetched, key, provided);
    var effective := EffectiveParams(fetched[key], provided);
    forall id ensures Get(a.children, id) == Get(b.children, id) {
      if id in ComponentNodes(fetched[key].graph.nodes) {
        SameNestedKey(fetched, d, key, id);
        SameInstance(fetched, d, KeyOfNested(fetched, key, id), effective[id]);
      }
    }
    SameMaps(a.children, b.children);
  }

  lemma ProvidedElsewhere(d: Definition, provided: Params, path: Path, path': Path)
    requires ProvidedFaults(d, provided, path) == {}
    ensures ProvidedFaults(d, provided, path') == {}
  {
    hide ParamNamed, Rejects;
    var names := Sorted(provided.Keys);
    var rs := seq(|names|, i requires 0 <= i < |names| => ProvidedFault(d, path, names[i], provided[names[i]]));
    UnionEmpty(rs);
    forall i | 0 <= i < |names| ensures ProvidedFault(d, path', names[i], provided[names[i]]) == {} {
      assert rs[i] == {};
    }
    UnionEmpty(seq(|names|, i requires 0 <= i < |names| => ProvidedFault(d, path', names[i], provided[names[i]])));
  }

  lemma EffectiveElsewhere(cat: Catalog, effective: map<NodeId, Params>, path: Path, path': Path, nodes: seq<Node>)
    requires effective.Keys == NodeIds(nodes) && EffectiveFaults(cat, effective, path, nodes) == {}
    ensures EffectiveFaults(cat, effective, path', nodes) == {}
  {
    hide NodeIds;
    var rs := seq(|nodes|, i requires 0 <= i < |nodes| => EffectiveFault(cat, effective, path, nodes[i]));
    UnionEmpty(rs);
    forall i | 0 <= i < |nodes| ensures EffectiveFault(cat, effective, path', nodes[i]) == {} {
      assert rs[i] == {};
    }
    UnionEmpty(seq(|nodes|, i requires 0 <= i < |nodes| => EffectiveFault(cat, effective, path', nodes[i])));
  }

  /** Whether an instance's parameters are accepted does not depend on where it sits, nor on the new definition. */
  lemma {:induction false} AcceptedElsewhere(cat: Catalog, fetched: Definitions, d: Definition, key: ComponentKey, provided: Params, path: Path, path': Path)
    requires SoundClosure(fetched) && SoundClosure(fetched[d.key := d]) && d.key !in fetched && key in fetched
    requires InstanceFaults(cat, fetched, key, provided, path) == {}
    ensures InstanceFaults(cat, fetched[d.key := d], key, provided, path') == {}
    decreases Height(fetched, key)
  {
    hide SoundClosure, Height, EffectiveParams, KeyOfNested, ProvidedFaults, EffectiveFaults, NodeIds;
    var fetched' := fetched[d.key := d];
    var effective, nodes := EffectiveParams(fetched[key], provided), fetched[key].graph.nodes;
    ProvidedElsewhere(fetched[key], provided, path, path');
    EffectiveElsewhere(cat, effective, path, path', nodes);
    forall id | id in ComponentNodes(nodes) ensures InstanceFaults(cat, fetched', KeyOfNested(fetched', key, id), effective[id], path' + [id]) == {} {
      SameNestedKey(fetched, d, key, id);
      assert InstanceFaults(cat, fetched, KeyOfNested(fetched, key, id), effective[id], path + [id]) == {} by {
        NestedFaultsNone(cat, fetched, key, provided, path, id);
      }
      AcceptedElsewhere(cat, fetched, d, KeyOfNested(fetched, key, id), effective[id], path + [id], path' + [id]);
    }
  }

  lemma NestedFaultsNone(cat: Catalog, fetched: Definitions, key: ComponentKey, provided: Params, path: Path, id: NodeId)
    requires SoundClosure(fetched) && key in fetched && InstanceFaults(cat, fetched, key, provided, path) == {}
    requires id in ComponentNodes(fetched[key].graph.nodes)
    ensures InstanceFaults(cat, fetched, KeyOfNested(fetched, key, id), EffectiveParams(fetched[key], provided)[id], path + [id]) == {}
  {
    hide SoundClosure, Height, EffectiveParams, KeyOfNested, ProvidedFaults, EffectiveFaults;
    var found := InstanceFaults(cat, fetched, KeyOfNested(fetched, key, id), EffectiveParams(fetched[key], provided)[id], path + [id]);
    assert forall f :: f in found ==> f in InstanceFaults(cat, fetched, key, provided, path);
  }
}
