/** Where a component parameter goes: `_instantiate` of quantize/components/resolve.py. */
module Overrides {
  import opened Closure
  import opened Collections
  import opened Documents
  import opened Evaluator
  import opened Instantiation
  import opened Invocations
  import opened SemanticCodes
  import opened Warmup

  /** The exposure that a name stands for: the last one with that name. */
  ghost predicate Exposes(d: Definition, name: ParamName, p: ExposedParam) {
    exists k :: 0 <= k < |d.exposedParams| && d.exposedParams[k] == p && p.name == name
      && forall j :: k < j < |d.exposedParams| ==> d.exposedParams[j].name != name
  }

  /** The value provided under the name is accepted, and bound to this parameter of this node. */
  ghost predicate Applies(d: Definition, provided: Params, name: ParamName, node: NodeId, param: ParamName) {
    name in provided && exists p :: Exposes(d, name, p) && p.node == node && p.param == param
                                    && (p.schema.wellFormed ==> p.schema.accepts(provided[name]))
  }

  /** It is the last such name. */
  ghost predicate Wins(d: Definition, provided: Params, name: ParamName, node: NodeId, param: ParamName) {
    Applies(d, provided, name, node, param) && forall other :: Applies(d, provided, other, node, param) ==> other <= name
  }

  lemma {:induction false} NamedIs(d: Definition, params: seq<ExposedParam>, name: ParamName)
    requires params <= d.exposedParams && forall j :: |params| <= j < |d.exposedParams| ==> d.exposedParams[j].name != name
    ensures forall p :: ParamNamed(params, name) == Some(p) <==> Exposes(d, name, p)
  {
    if params == [] {
      assert forall k :: 0 <= k < |d.exposedParams| ==> d.exposedParams[k].name != name;
    } else {
      var n := |params| - 1;
      assert d.exposedParams[n] == params[n];
      if params[n].name == name {
        forall p | Exposes(d, name, p) ensures p == params[n] {
          var k :| 0 <= k < |d.exposedParams| && d.exposedParams[k] == p && p.name == name
            && forall j :: k < j < |d.exposedParams| ==> d.exposedParams[j].name != name;
          assert k == n;
        }
      } else {
        NamedIs(d, params[..n], name);
      }
    }
  }

  /** One override changes the parameter it applies to, and no other. */
  lemma OverrideAt(d: Definition, params: map<NodeId, Params>, provided: Params, name: ParamName, node: NodeId, param: ParamName)
    requires name in provided && node in params
    ensures var after := Override(d, params, name, provided[name]);
      node in after && Get(after[node], param) == if Applies(d, provided, name, node, param) then Some(provided[name]) else Get(params[node], param)
  {
    NamedIs(d, d.exposedParams, name);
    hide Exposes, ParamNamed;
    var named := ParamNamed(d.exposedParams, name);
    if Applies(d, provided, name, node, param) {
      var p :| Exposes(d, name, p) && p.node == node && p.param == param && (p.schema.wellFormed ==> p.schema.accepts(provided[name]));
      assert named == Some(p);
    } else if named.Some? {
      assert Exposes(d, name, named.value);
    }
  }

  ghost predicate LastOf(d: Definition, provided: Params, names: seq<ParamName>, name: ParamName, node: NodeId, param: ParamName) {
    name in names && Applies(d, provided, name, node, param)
    && forall other :: other in names && Applies(d, provided, other, node, param) ==> other <= name
  }

  /** After the first k names: the last applying one of them has decided, or the authored value stands. */
  lemma {:induction false} OverriddenAt(d: Definition, provided: Params, names: seq<ParamName>, node: NodeId, param: ParamName)
    requires Ascending(names) && (forall n :: n in names ==> n in provided) && node in NodeIds(d.graph.nodes)
    ensures var after := Overridden(d, AuthoredParams(d.graph.nodes), provided, names);
      && node in after
      && (forall name :: LastOf(d, provided, names, name, node, param) ==> Get(after[node], param) == Some(provided[name]))
      && ((forall name :: name in names ==> !Applies(d, provided, name, node, param))
          ==> Get(after[node], param) == Get(NodeOf(d.graph.nodes, node).params, param))
  {
    hide Applies, Override, NodeOf, NodeIds;
    if names != [] {
      var n := |names| - 1;
      var front, last := names[..n], names[n];
      OverriddenAt(d, provided, front, node, param);
      assert forall x :: x in names <==> x in front || x == last;
      assert forall x :: x in front ==> x < last;
      OverrideAt(d, Overridden(d, AuthoredParams(d.graph.nodes), provided, front), provided, last, node, param);
    }
  }

  /** The effective parameters of a component: under every node and parameter the value provided under the last name whose
      exposure is bound to it and accepts it, or else the authored one; and no other node or key. */
  lemma EffectiveIs(d: Definition, provided: Params, node: NodeId, param: ParamName)
    ensures EffectiveParams(d, provided).Keys == NodeIds(d.graph.nodes)
    ensures node in NodeIds(d.graph.nodes) ==>
      forall name :: Wins(d, provided, name, node, param) ==> Get(EffectiveParams(d, provided)[node], param) == Some(provided[name])
    ensures (exists name :: Wins(d, provided, name, node, param)) || (forall name :: !Applies(d, provided, name, node, param))
    ensures node in NodeIds(d.graph.nodes) && (forall name :: !Applies(d, provided, name, node, param))
      ==> Get(EffectiveParams(d, provided)[node], param) == Get(NodeOf(d.graph.nodes, node).params, param)
  {
    hide Overridden, Applies, NodeOf, NodeIds, Wins, LastOf;
    var names := Sorted(provided.Keys);
    forall name ensures LastOf(d, provided, names, name, node, param) <==> Wins(d, provided, name, node, param)
      ensures Applies(d, provided, name, node, param) ==> name in names
    {
      WinsIsLast(d, provided, names, name, node, param);
    }
    if node in NodeIds(d.graph.nodes) {
      OverriddenAt(d, provided, names, node, param);
    }
    if name :| Applies(d, provided, name, node, param) {
      SomeWins(d, provided, names, node, param);
    }
  }

  lemma WinsIsLast(d: Definition, provided: Params, names: seq<ParamName>, name: ParamName, node: NodeId, param: ParamName)
    requires forall x :: x in names <==> x in provided
    ensures LastOf(d, provided, names, name, node, param) <==> Wins(d, provided, name, node, param)
    ensures Applies(d, provided, name, node, param) ==> name in names
  {
    hide Exposes;
    assert forall x :: Applies(d, provided, x, node, param) ==> x in provided;
  }

  lemma {:induction false} SomeWins(d: Definition, provided: Params, names: seq<ParamName>, node: NodeId, param: ParamName)
    requires Ascending(names) && exists name :: name in names && Applies(d, provided, name, node, param)
    ensures exists name :: LastOf(d, provided, names, name, node, param)
  {
    hide Applies;
    var n := |names| - 1;
    var front, last := names[..n], names[n];
    assert forall x :: x in names <==> x in front || x == last;
    assert forall x :: x in front ==> x < last;
    if Applies(d, provided, last, node, param) {
      assert LastOf(d, provided, names, last, node, param);
    } else {
      SomeWins(d, provided, front, node, param);
      var name :| LastOf(d, provided, front, name, node, param);
      assert LastOf(d, provided, names, name, node, param);
    }
  }

  /* ---- through nested components ---- */

  /** The override under a name goes, from component to nested component, to a parameter of the registered node at rel. */
  ghost predicate Delivers(fetched: Definitions, key: ComponentKey, provided: Params, name: ParamName, rel: Path, param: ParamName)
    requires SoundClosure(fetched) && key in fetched
    decreases |rel|
  {
    var d := fetched[key];
    rel != [] && rel[0] in NodeIds(d.graph.nodes)
    && if |rel| == 1 then NodeOf(d.graph.nodes, rel[0]).Registered? && Wins(d, provided, name, rel[0], param)
       else rel[0] in ComponentNodes(d.graph.nodes)
            && exists inner :: Wins(d, provided, name, rel[0], inner)
                 && Delivers(fetched, KeyOfNested(fetched, key, rel[0]), EffectiveParams(d, provided)[rel[0]], inner, rel[1..], param)
  }

  /** It arrives: the registered node at the end of the chain of re-exposures has the provided value as its parameter. */
  lemma {:induction false} OverrideArrives(fetched: Definitions, key: ComponentKey, provided: Params, name: ParamName, rel: Path, param: ParamName)
    requires SoundClosure(fetched) && key in fetched && Delivers(fetched, key, provided, name, rel, param)
    ensures name in provided
    ensures var leaf := KindAt(Instantiate(fetched, key, provided), rel);
      leaf.Some? && Get(leaf.value.params, param) == Some(provided[name])
    decreases |rel|
  {
    hide SoundClosure, Height, EffectiveParams, Exposes, NodeOf;
    var d, id := fetched[key], rel[0];
    if |rel| == 1 {
      EffectiveIs(d, provided, id, param);
    } else {
      var inner :| Wins(d, provided, name, id, inner)
        && Delivers(fetched, KeyOfNested(fetched, key, id), EffectiveParams(d, provided)[id], inner, rel[1..], param);
      EffectiveIs(d, provided, id, inner);
      OverrideArrives(fetched, KeyOfNested(fetched, key, id), EffectiveParams(d, provided)[id], inner, rel[1..], param);
    }
  }

  /* ---- what they decide ---- */

  /** The warm-up of a leaf is what its type declares for the parameters it is run with, overrides included. */
  lemma {:induction false} LeafWarmup(cat: Catalog, inst: Instance, rel: Path, warmup: int)
    ensures WarmupAt(cat, inst, rel) == Some(warmup) <==>
      var leaf := KindAt(inst, rel);
      leaf.Some? && (leaf.value.typeId, leaf.value.version) in cat.byKey && warmup == cat.byKey[(leaf.value.typeId, leaf.value.version)].warmup(leaf.value.params)
    decreases rel
  {
    hide NodeOf, NodeIds;
    if rel != [] && rel[0] in inst.Ids() {
      var n := NodeOf(inst.Nodes(), rel[0]);
      if n.Registered? {
        ResolveIs(cat, n.typeId, n.version);
      } else if n.id in inst.children {
        LeafWarmup(cat, inst.children[n.id], rel[1..], warmup);
      }
    }
  }
}
