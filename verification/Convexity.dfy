/** Which sets of nodes can be grouped: those that no path of edges leaves and comes back to. */
module Convexity {
  import opened Cycles
  import opened Documents
  import opened Evaluator
  import opened Grouping
  import opened Planning

  /** A path that starts and ends in the set and is outside it in between. */
  ghost predicate Excursion(pairs: Pairs, s: set<NodeId>, w: seq<NodeId>) {
    |w| >= 3 && Walk(pairs, w) && w[0] in s && w[|w| - 1] in s && forall k :: 0 < k < |w| - 1 ==> w[k] !in s
  }

  ghost predicate Convex(pairs: Pairs, s: set<NodeId>) {
    forall w :: !Excursion(pairs, s, w)
  }

  function Outer(inst: Instance, g: Group): Pairs {
    EdgePairs(OuterEdges(inst.Edges(), g, |inst.Edges()|))
  }

  /** The end of an edge as the cut graph sees it. */
  function Seen(g: Group, x: NodeId): NodeId {
    if x in g.nodes then g.id else x
  }

  lemma PairOutward(inst: Instance, g: Group, x: NodeId, y: NodeId)
    requires (x, y) in EdgePairs(inst.Edges()) && !(x in g.nodes && y in g.nodes)
    ensures (Seen(g, x), Seen(g, y)) in Outer(inst, g)
  {
    var e :| e in inst.Edges() && (x, y) == (e.src, e.dst);
    var i :| 0 <= i < |inst.Edges()| && inst.Edges()[i] == e;
    var f := Outward(g, e, i);
    assert !IsInner(g.nodes, inst.Edges()[i]);
    assert f in OuterEdges(inst.Edges(), g, |inst.Edges()|);
    assert (f.src, f.dst) == (Seen(g, x), Seen(g, y));
  }

  /** A pair of the cut graph comes from an edge, at most one end of which was moved. */
  lemma PairInward(inst: Instance, g: Group, a: NodeId, b: NodeId) returns (x: NodeId, y: NodeId)
    requires (a, b) in Outer(inst, g)
    ensures (x, y) in EdgePairs(inst.Edges()) && !(x in g.nodes && y in g.nodes) && a == Seen(g, x) && b == Seen(g, y)
  {
    var f :| f in OuterEdges(inst.Edges(), g, |inst.Edges()|) && (a, b) == (f.src, f.dst);
    var i :| 0 <= i < |inst.Edges()| && !IsInner(g.nodes, inst.Edges()[i]) && f == Outward(g, inst.Edges()[i], i);
    x, y := inst.Edges()[i].src, inst.Edges()[i].dst;
    assert inst.Edges()[i] in inst.Edges();
  }

  /** An excursion closes a cycle through the component node. */
  lemma ExcursionCloses(inst: Instance, g: Group, w: seq<NodeId>)
    requires Excursion(EdgePairs(inst.Edges()), g.nodes, w)
    ensures !Acyclic(Outer(inst, g))
  {
    hide Outer, EdgePairs;
    var c := seq(|w|, k requires 0 <= k < |w| => Seen(g, w[k]));
    forall k | 0 <= k < |c| - 1 ensures (c[k], c[k + 1]) in Outer(inst, g) {
      PairOutward(inst, g, w[k], w[k + 1]);
    }
    assert ClosedWalk(Outer(inst, g), c);
  }

  /** Pairs between nodes outside are the original ones. */
  lemma PairOutside(inst: Instance, g: Group, a: NodeId, b: NodeId)
    requires Within(EdgePairs(inst.Edges()), inst.Ids()) && g.id !in inst.Ids() && (a, b) in Outer(inst, g)
    ensures a != g.id || b != g.id
    ensures a != g.id ==> a !in g.nodes && exists y :: (a, y) in EdgePairs(inst.Edges()) && Seen(g, y) == b
    ensures b != g.id ==> b !in g.nodes && exists x :: (x, b) in EdgePairs(inst.Edges()) && Seen(g, x) == a
  {
    hide Outer, EdgePairs, NodeIds;
    var x, y := PairInward(inst, g, a, b);
    assert x in inst.Ids() && y in inst.Ids();
  }

  /** Away from the component node a walk of the cut graph is a walk of the original one. */
  lemma WalkOutside(inst: Instance, g: Group, w: seq<NodeId>)
    requires Within(EdgePairs(inst.Edges()), inst.Ids()) && g.id !in inst.Ids()
    requires Walk(Outer(inst, g), w) && g.id !in w
    ensures Walk(EdgePairs(inst.Edges()), w)
  {
    hide Outer, EdgePairs, NodeIds;
    forall k | 0 <= k < |w| - 1 ensures (w[k], w[k + 1]) in EdgePairs(inst.Edges()) {
      PairOutside(inst, g, w[k], w[k + 1]);
    }
  }

  lemma CycleOutside(inst: Instance, g: Group, c: seq<NodeId>)
    requires Within(EdgePairs(inst.Edges()), inst.Ids()) && g.id !in inst.Ids()
    requires ClosedWalk(Outer(inst, g), c) && g.id !in c
    ensures !Acyclic(EdgePairs(inst.Edges()))
  {
    hide Outer, EdgePairs, NodeIds;
    WalkOutside(inst, g, c);
    assert ClosedWalk(EdgePairs(inst.Edges()), c);
  }

  /** A round trip from the component node that passes it nowhere else is an excursion. */
  lemma RoundTripIsExcursion(inst: Instance, g: Group, c: seq<NodeId>)
    requires Within(EdgePairs(inst.Edges()), inst.Ids()) && g.id !in inst.Ids()
    requires ClosedWalk(Outer(inst, g), c) && c[0] == g.id && forall k :: 0 < k < |c| - 1 ==> c[k] != g.id
    ensures !Convex(EdgePairs(inst.Edges()), g.nodes)
  {
    hide Outer, EdgePairs, NodeIds;
    var n := |c| - 1;
    PairOutside(inst, g, c[0], c[1]);
    PairOutside(inst, g, c[n - 1], c[n]);
    var x :| (x, c[1]) in EdgePairs(inst.Edges()) && Seen(g, x) == g.id;
    var y :| (c[n - 1], y) in EdgePairs(inst.Edges()) && Seen(g, y) == g.id;
    assert x in inst.Ids() && y in inst.Ids();
    var inner := c[1..n];
    assert Walk(Outer(inst, g), inner) by {
      forall k | 0 <= k < |inner| - 1 ensures (inner[k], inner[k + 1]) in Outer(inst, g) {
        assert (c[k + 1], c[k + 2]) in Outer(inst, g);
      }
    }
    WalkOutside(inst, g, inner);
    var w := [x] + inner + [y];
    forall k | 0 <= k < |w| - 1 ensures (w[k], w[k + 1]) in EdgePairs(inst.Edges()) {
      if 0 < k < |inner| { assert (inner[k - 1], inner[k]) in EdgePairs(inst.Edges()); }
    }
    forall k | 0 < k < |w| - 1 ensures w[k] !in g.nodes {
      PairOutside(inst, g, c[k], c[k + 1]);
    }
    assert Excursion(EdgePairs(inst.Edges()), g.nodes, w);
  }

  /** A closed walk read from another of its places. */
  lemma Rotated(pairs: Pairs, w: seq<NodeId>, i: nat)
    requires ClosedWalk(pairs, w) && i < |w|
    ensures ClosedWalk(pairs, w[i..] + w[1..i + 1])
  {
    var r := w[i..] + w[1..i + 1];
    forall k | 0 <= k < |r| - 1 ensures (r[k], r[k + 1]) in pairs {
      if k < |w| - i - 1 {
        assert (w[i + k], w[i + k + 1]) in pairs;
      } else {
        var j := k - (|w| - i - 1);
        assert (w[j], w[j + 1]) in pairs;
      }
    }
  }

  lemma {:induction false} CycleThroughGroup(inst: Instance, g: Group, c: seq<NodeId>)
    requires Within(EdgePairs(inst.Edges()), inst.Ids()) && g.id !in inst.Ids()
    requires ClosedWalk(Outer(inst, g), c) && c[0] == g.id
    ensures !Convex(EdgePairs(inst.Edges()), g.nodes)
    decreases |c|
  {
    hide Outer, EdgePairs, NodeIds, Convex;
    if k :| 0 < k < |c| - 1 && c[k] == g.id {
      assert Walk(Outer(inst, g), c[..k + 1]);
      CycleThroughGroup(inst, g, c[..k + 1]);
    } else {
      RoundTripIsExcursion(inst, g, c);
    }
  }

  /** A set can be grouped exactly when no path leaves it and comes back. */
  lemma GroupableIffConvex(inst: Instance, g: Group)
    requires Within(EdgePairs(inst.Edges()), inst.Ids()) && Acyclic(EdgePairs(inst.Edges()))
    requires g.id !in inst.Ids() && NoFanIn(inst.Edges())
    ensures Groupable(inst, g) <==> Convex(EdgePairs(inst.Edges()), g.nodes)
  {
    hide EdgePairs, NodeIds, OuterEdges;
    var outer := Outer(inst, g);
    assert Groupable(inst, g) <==> Acyclic(outer);
    if !Convex(EdgePairs(inst.Edges()), g.nodes) {
      var w :| Excursion(EdgePairs(inst.Edges()), g.nodes, w);
      ExcursionCloses(inst, g, w);
    } else if !Acyclic(outer) {
      var c :| ClosedWalk(outer, c);
      if g.id in c {
        var i :| 0 <= i < |c| && c[i] == g.id;
        Rotated(outer, c, i);
        CycleThroughGroup(inst, g, c[i..] + c[1..i + 1]);
      } else {
        CycleOutside(inst, g, c);
      }
    }
  }
}
