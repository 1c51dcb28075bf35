/** Declared warm-up over the instance tree: `resolve_warmup` of quantize/evaluator/plan.py. */
module Warmup {
  import opened Collections
  import opened Documents
  import opened Evaluator

  /** The warm-up declared by the leaf at a relative path. */
  function WarmupAt(cat: Catalog, inst: Instance, rel: Path): Option<int>
    decreases rel
  {
    if rel == [] || rel[0] !in inst.Ids() then None
    else
      var n := NodeOf(inst.Nodes(), rel[0]);
      if n.Registered? then
        (match cat.Resolve(n.typeId, n.version)
         case Resolved(i) => if |rel| == 1 then Some(i.warmup(inst.ParamsOf(n.id))) else None
         case _ => None)
      else if n.id in inst.children then WarmupAt(cat, inst.children[n.id], rel[1..])
      else None
  }

  function Larger(a: Option<int>, b: Option<int>): Option<int> {
    if a.None? then b else if b.None? then a else if a.value >= b.value then a else b
  }

  /** The largest warm-up among the first nodes of the id order and everything nested in them. */
  ghost function WarmupOver(cat: Catalog, inst: Instance, ids: seq<NodeId>): Option<int>
    requires forall id :: id in ids ==> id in inst.Ids()
    decreases inst, |ids|
  {
    if ids == [] then None
    else Larger(WarmupOver(cat, inst, ids[..|ids| - 1]), NodeWarmup(cat, inst, ids[|ids| - 1]))
  }

  ghost function NodeWarmup(cat: Catalog, inst: Instance, id: NodeId): Option<int>
    requires id in inst.Ids()
    decreases inst, 0
  {
    var n := NodeOf(inst.Nodes(), id);
    if n.Registered? then
      (match cat.Resolve(n.typeId, n.version) case Resolved(i) => Some(i.warmup(inst.ParamsOf(id))) case _ => None)
    else if id in inst.children then WarmupOver(cat, inst.children[id], Sorted(inst.children[id].Ids()))
    else None
  }

  ghost function WarmupTotal(cat: Catalog, root: Instance): int {
    var most := WarmupOver(cat, root, Sorted(root.Ids()));
    if most.Some? then most.value else 0
  }

  /** most is the largest warm-up of the leaves under these nodes. */
  ghost predicate LargestUnder(cat: Catalog, inst: Instance, ids: seq<NodeId>, most: Option<int>) {
    && (forall rel :: rel != [] && rel[0] in ids && WarmupAt(cat, inst, rel).Some? ==> most.Some? && WarmupAt(cat, inst, rel).value <= most.value)
    && (most.Some? ==> exists rel :: rel != [] && rel[0] in ids && WarmupAt(cat, inst, rel) == most)
  }

  /** A leaf inside a component, seen from outside. */
  lemma ThroughComponent(cat: Catalog, inst: Instance, id: NodeId, rel: Path)
    requires id in inst.Ids() && NodeOf(inst.Nodes(), id).Component? && id in inst.children && rel != [] && rel[0] == id
    ensures WarmupAt(cat, inst, rel) == WarmupAt(cat, inst.children[id], rel[1..])
  {
  }

  lemma LiftLargest(cat: Catalog, inst: Instance, id: NodeId, most: Option<int>)
    requires id in inst.Ids() && NodeOf(inst.Nodes(), id).Component? && id in inst.children
    requires LargestUnder(cat, inst.children[id], Sorted(inst.children[id].Ids()), most)
    ensures LargestUnder(cat, inst, [id], most)
  {
    hide WarmupAt, NodeOf, Sorted, NodeIds;
    var child := inst.children[id];
    var ids := Sorted(child.Ids());
    forall rel | rel != [] && rel[0] in [id] && WarmupAt(cat, inst, rel).Some? ensures most.Some? && WarmupAt(cat, inst, rel).value <= most.value {
      ThroughComponent(cat, inst, id, rel);
      NonemptyWarmup(cat, child, rel[1..]);
    }
    if most.Some? {
      var inner :| inner != [] && inner[0] in ids && WarmupAt(cat, child, inner) == most;
      LiftedPath(cat, inst, id, inner);
      assert ([id] + inner)[0] in [id];
    }
  }

  lemma LiftedPath(cat: Catalog, inst: Instance, id: NodeId, inner: Path)
    requires id in inst.Ids() && NodeOf(inst.Nodes(), id).Component? && id in inst.children
    ensures WarmupAt(cat, inst, [id] + inner) == WarmupAt(cat, inst.children[id], inner)
  {
    hide NodeOf;
    var rel := [id] + inner;
    assert rel[1..] == inner;
  }

  lemma NonemptyWarmup(cat: Catalog, inst: Instance, rel: Path)
    requires WarmupAt(cat, inst, rel).Some?
    ensures rel != [] && rel[0] in inst.Ids()
  {
  }

  lemma RegisteredLargest(cat: Catalog, inst: Instance, id: NodeId)
    requires id in inst.Ids() && NodeOf(inst.Nodes(), id).Registered?
    ensures LargestUnder(cat, inst, [id], WarmupAt(cat, inst, [id]))
  {
    var most := WarmupAt(cat, inst, [id]);
    forall rel | rel != [] && rel[0] in [id] && WarmupAt(cat, inst, rel).Some? ensures most.Some? && WarmupAt(cat, inst, rel).value <= most.value {
      assert rel == [id];
    }
  }

  lemma {:induction false} NodeWarmupIsLargest(cat: Catalog, inst: Instance, id: NodeId)
    requires id in inst.Ids()
    ensures LargestUnder(cat, inst, [id], NodeWarmup(cat, inst, id))
    decreases inst, 0
  {
    hide LargestUnder;
    var n := NodeOf(inst.Nodes(), id);
    if n.Registered? {
      RegisteredLargest(cat, inst, id);
    } else if id in inst.children {
      WarmupIsLargest(cat, inst.children[id], Sorted(inst.children[id].Ids()));
      LiftLargest(cat, inst, id, NodeWarmup(cat, inst, id));
    } else {
      NothingUnder(cat, inst, id);
    }
  }

  lemma NothingUnder(cat: Catalog, inst: Instance, id: NodeId)
    requires id in inst.Ids() && NodeOf(inst.Nodes(), id).Component? && id !in inst.children
    ensures LargestUnder(cat, inst, [id], None)
  {
  }

  lemma {:induction false} WarmupIsLargest(cat: Catalog, inst: Instance, ids: seq<NodeId>)
    requires forall id :: id in ids ==> id in inst.Ids()
    ensures LargestUnder(cat, inst, ids, WarmupOver(cat, inst, ids))
    decreases inst, |ids| + 1
  {
    hide WarmupAt, NodeWarmup;
    if ids != [] {
      var n := |ids| - 1;
      var front, last := ids[..n], ids[n];
      WarmupIsLargest(cat, inst, front);
      NodeWarmupIsLargest(cat, inst, last);
      assert forall x :: x in ids <==> x in front || x == last;
      var a, b := WarmupOver(cat, inst, front), NodeWarmup(cat, inst, last);
      if a.Some? {
        var rel :| rel != [] && rel[0] in front && WarmupAt(cat, inst, rel) == a;
        assert rel[0] in ids;
      }
      if b.Some? {
        var rel :| rel != [] && rel[0] in [last] && WarmupAt(cat, inst, rel) == b;
        assert rel[0] in ids;
      }
      forall rel | rel != [] && rel[0] in ids && WarmupAt(cat, inst, rel).Some?
        ensures Larger(a, b).Some? && WarmupAt(cat, inst, rel).value <= Larger(a, b).value
      {
        assert rel[0] in front || rel[0] in [last];
      }
    }
  }

  /** Some leaf declares this warm-up. */
  ghost predicate Declared(cat: Catalog, root: Instance, warmup: int) {
    exists rel :: WarmupAt(cat, root, rel) == Some(warmup)
  }

  lemma LargestDeclared(cat: Catalog, root: Instance, ids: seq<NodeId>, most: Option<int>)
    requires LargestUnder(cat, root, ids, most) && most.Some?
    ensures Declared(cat, root, most.value)
  {
    var rel :| rel != [] && rel[0] in ids && WarmupAt(cat, root, rel) == most;
    assert most == Some(most.value);
  }

  /** The strategy-wide warm-up is the largest one declared anywhere in the hierarchy, or zero if none is. */
  lemma TotalIsLargest(cat: Catalog, root: Instance)
    ensures forall rel :: WarmupAt(cat, root, rel).Some? ==> WarmupAt(cat, root, rel).value <= WarmupTotal(cat, root)
    ensures Declared(cat, root, WarmupTotal(cat, root)) || (WarmupTotal(cat, root) == 0 && forall rel :: WarmupAt(cat, root, rel).None?)
  {
    hide WarmupOver, Declared;
    var ids := Sorted(root.Ids());
    var most := WarmupOver(cat, root, ids);
    WarmupIsLargest(cat, root, ids);
    if most.Some? {
      LargestDeclared(cat, root, ids, most);
    }
    forall rel | WarmupAt(cat, root, rel).Some? ensures WarmupAt(cat, root, rel).value <= WarmupTotal(cat, root) {
      hide WarmupAt;
      NonemptyWarmup(cat, root, rel);
    }
  }

  /* ---- the dictionary by node path ---- */

  /** What the walk adds under these nodes of the graph at path: every leaf's warm-up, under the leaf's path. */
  ghost predicate Walked(cat: Catalog, inst: Instance, path: Path, ids: seq<NodeId>, before: map<Path, int>, after: map<Path, int>) {
    forall p :: Get(after, p) == Recorded(cat, inst, path, ids, before, p)
  }

  function Recorded(cat: Catalog, inst: Instance, path: Path, ids: seq<NodeId>, before: map<Path, int>, p: Path): Option<int> {
    if path < p && p[|path|] in ids && WarmupAt(cat, inst, p[|path|..]).Some? then WarmupAt(cat, inst, p[|path|..]) else Get(before, p)
  }

  lemma WalkedRegistered(cat: Catalog, inst: Instance, path: Path, ids: seq<NodeId>, id: NodeId, before: map<Path, int>, noted: map<Path, int>, warmup: int)
    requires Walked(cat, inst, path, ids, before, noted) && id in inst.Ids() && NodeOf(inst.Nodes(), id).Registered?
    requires WarmupAt(cat, inst, [id]) == Some(warmup)
    ensures Walked(cat, inst, path, ids + [id], before, noted[path + [id] := warmup])
  {
    hide NodeOf, NodeIds;
    forall p ensures Get(noted[path + [id] := warmup], p) == Recorded(cat, inst, path, ids + [id], before, p) {
      assert Get(noted, p) == Recorded(cat, inst, path, ids, before, p);
      if path < p && p[|path|] == id {
        var rel := p[|path|..];
        assert rel[0] == id && p == path + rel;
        if |rel| == 1 { assert rel == [id]; }
      }
    }
  }

  lemma WalkedNothing(cat: Catalog, inst: Instance, path: Path, ids: seq<NodeId>, id: NodeId, before: map<Path, int>, noted: map<Path, int>)
    requires Walked(cat, inst, path, ids, before, noted)
    requires forall rel :: rel != [] && rel[0] == id ==> WarmupAt(cat, inst, rel).None?
    ensures Walked(cat, inst, path, ids + [id], before, noted)
  {
    hide WarmupAt;
    forall p ensures Get(noted, p) == Recorded(cat, inst, path, ids + [id], before, p) {
      assert Get(noted, p) == Recorded(cat, inst, path, ids, before, p);
    }
  }

  lemma WalkedComponent(cat: Catalog, inst: Instance, path: Path, ids: seq<NodeId>, id: NodeId, before: map<Path, int>, noted: map<Path, int>, after: map<Path, int>)
    requires Walked(cat, inst, path, ids, before, noted)
    requires id in inst.Ids() && NodeOf(inst.Nodes(), id).Component? && id in inst.children
    requires Walked(cat, inst.children[id], path + [id], Sorted(inst.children[id].Ids()), noted, after)
    ensures Walked(cat, inst, path, ids + [id], before, after)
  {
    hide WarmupAt, NodeOf, NodeIds, Sorted;
    var child, here := inst.children[id], path + [id];
    forall p ensures Get(after, p) == Recorded(cat, inst, path, ids + [id], before, p) {
      assert Get(noted, p) == Recorded(cat, inst, path, ids, before, p);
      assert Get(after, p) == Recorded(cat, child, here, Sorted(child.Ids()), noted, p);
      if path < p && p[|path|] == id {
        var rel := p[|path|..];
        assert rel[0] == id && p == here + rel[1..] && p[|here|..] == rel[1..];
        ThroughComponent(cat, inst, id, rel);
        if WarmupAt(cat, child, rel[1..]).Some? { NonemptyWarmup(cat, child, rel[1..]); }
      }
    }
  }

  lemma WalkedNone(cat: Catalog, inst: Instance, path: Path, noted: map<Path, int>)
    ensures Walked(cat, inst, path, [], noted, noted)
  {
  }

  /** The recursive walk in id order. */
  method Walk(cat: Catalog, inst: Instance, path: Path, before: map<Path, int>) returns (noted: map<Path, int>)
    ensures Walked(cat, inst, path, Sorted(inst.Ids()), before, noted)
    decreases inst
  {
    hide Walked, Sorted;
    var ids := Sorted(inst.Ids());
    noted := before;
    WalkedNone(cat, inst, path, noted);
    for i := 0 to |ids|
      invariant Walked(cat, inst, path, ids[..i], before, noted)
    {
      assert ids[..i + 1] == ids[..i] + [ids[i]];
      var id := ids[i];
      assert id in ids;
      var node := NodeOf(inst.Nodes(), id);
      if node.Registered? {
        var resolution := cat.Resolve(node.typeId, node.version);
        if resolution.Resolved? {
          var warmup := resolution.implementation.warmup(inst.ParamsOf(id));
          WalkedRegistered(cat, inst, path, ids[..i], id, before, noted, warmup);
          noted := noted[path + [id] := warmup];
        } else {
          WalkedNothing(cat, inst, path, ids[..i], id, before, noted);
        }
      } else if id in inst.children {
        ghost var sofar := noted;
        noted := Walk(cat, inst.children[id], path + [id], noted);
        WalkedComponent(cat, inst, path, ids[..i], id, before, sofar, noted);
      } else {
        WalkedNothing(cat, inst, path, ids[..i], id, before, noted);
      }
    }
    assert ids[..|ids|] == ids;
  }

  /** The dictionary holds every leaf's declared warm-up, and nothing else. */
  ghost predicate ByNode(cat: Catalog, root: Instance, noted: map<Path, int>) {
    forall p :: Get(noted, p) == WarmupAt(cat, root, p)
  }

  lemma WalkedAll(cat: Catalog, root: Instance, noted: map<Path, int>)
    requires Walked(cat, root, [], Sorted(root.Ids()), map[], noted)
    ensures ByNode(cat, root, noted)
  {
    hide WarmupAt, Sorted, NodeIds;
    forall p ensures Get(noted, p) == WarmupAt(cat, root, p) {
      assert Get(noted, p) == Recorded(cat, root, [], Sorted(root.Ids()), map[], p);
      if p != [] {
        assert p[0..] == p;
      }
      if WarmupAt(cat, root, p).Some? { NonemptyWarmup(cat, root, p); }
    }
  }

  lemma SomeDeclared(cat: Catalog, root: Instance, p: Path)
    requires WarmupAt(cat, root, p).Some?
    ensures Declared(cat, root, WarmupTotal(cat, root))
  {
    TotalIsLargest(cat, root);
  }

  lemma NoValues(noted: map<Path, int>)
    requires noted.Values == {}
    ensures noted == map[]
  {
    var all := noted.Values;
    assert forall p :: p in noted ==> noted[p] in all;
    assert noted.Keys == {};
  }

  /** The largest of the values is the total. */
  lemma LargestIsTotal(cat: Catalog, root: Instance, noted: map<Path, int>, most: int)
    requires ByNode(cat, root, noted)
    requires if noted.Values == {} then most == 0 else most in noted.Values && forall v :: v in noted.Values ==> v <= most
    ensures most == WarmupTotal(cat, root)
  {
    hide WarmupAt, WarmupTotal;
    TotalIsLargest(cat, root);
    if noted.Values != {} {
      var p :| p in noted && noted[p] == most;
      assert Get(noted, p) == WarmupAt(cat, root, p);
      SomeDeclared(cat, root, p);
      var q :| WarmupAt(cat, root, q) == Some(WarmupTotal(cat, root));
      assert Get(noted, q) == WarmupAt(cat, root, q);
      assert noted[q] in noted.Values;
    } else {
      NoValues(noted);
      forall p ensures WarmupAt(cat, root, p).None? {
        assert Get(noted, p) == WarmupAt(cat, root, p);
      }
    }
  }

  /** max(values, default=0). */
  function Largest(values: set<int>): (most: int)
    ensures if values == {} then most == 0 else most in values && forall v :: v in values ==> v <= most
  {
    var sorted := Sorted(values);
    if sorted == [] then 0
    else
      var most := sorted[|sorted| - 1];
      assert most in sorted;
      assert forall v :: v in values ==> v in sorted;
      most
  }

  /** `resolve_warmup`: the warm-up of every node by its path, and the largest of them. */
  method ResolveWarmup(cat: Catalog, root: Instance) returns (byNode: map<Path, int>, total: int)
    ensures ByNode(cat, root, byNode) && total == WarmupTotal(cat, root)
  {
    hide WarmupTotal, ByNode, Walked, Sorted;
    byNode := Walk(cat, root, [], map[]);
    WalkedAll(cat, root, byNode);
    total := Largest(byNode.Values);
    LargestIsTotal(cat, root, byNode, total);
  }
}
