/** Cycle detection: quantize/validation/structural.py, `_find_cycle`. */
module Cycles {
  import opened Collections

  type Pairs = set<(int, int)>

  ghost predicate Walk(pairs: Pairs, w: seq<int>) {
    forall i :: 0 <= i < |w| - 1 ==> (w[i], w[i + 1]) in pairs
  }

  /** A genuine cycle written as [n, ..., n]. */
  ghost predicate ClosedWalk(pairs: Pairs, w: seq<int>) {
    |w| >= 2 && w[0] == w[|w| - 1] && Walk(pairs, w)
  }

  ghost predicate Acyclic(pairs: Pairs) {
    forall w :: !ClosedWalk(pairs, w)
  }

  /** The edges an adjacency dictionary stands for. */
  ghost function PairsOf(adj: map<int, seq<int>>): (r: Pairs)
    ensures forall a, b :: (a, b) in r <==> a in adj && b in adj[a]
  {
    set a, k | a in adj && 0 <= k < |adj[a]| :: (a, adj[a][k])
  }

  /** Every successor of a finished node was finished before it. */
  ghost predicate FinishedInOrder(adj: map<int, seq<int>>, done: seq<int>) {
    forall j :: 0 <= j < |done| ==>
      done[j] in adj && forall n :: n in adj[done[j]] ==> n in done[..j]
  }

  ghost function FirstIndex(s: seq<int>, x: int): (k: nat)
    requires x in s
    ensures k < |s| && s[k] == x && x !in s[..k]
  {
    if s[0] == x then 0 else 1 + FirstIndex(s[1..], x)
  }

  lemma {:induction false} FirstIndexLeast(s: seq<int>, x: int, i: nat)
    requires i < |s| && s[i] == x
    ensures x in s && FirstIndex(s, x) <= i
  {
    if s[0] != x {
      FirstIndexLeast(s[1..], x, i - 1);
    }
  }

  lemma FirstIndexBefore(s: seq<int>, x: int, j: nat)
    requires j <= |s| && x in s[..j]
    ensures x in s && FirstIndex(s, x) < j
  {
    var i :| 0 <= i < j && s[i] == x;
    FirstIndexLeast(s, x, i);
  }

  /** Along a walk that starts at a finished node, finishing positions only go down. */
  lemma {:induction false} FinishingDescends(adj: map<int, seq<int>>, done: seq<int>, w: seq<int>, i: nat)
    requires FinishedInOrder(adj, done) && Walk(PairsOf(adj), w)
    requires i < |w| && w[0] in done
    ensures w[i] in done && (i > 0 ==> FirstIndex(done, w[i]) < FirstIndex(done, w[0]))
  {
    if i > 0 {
      FinishingDescends(adj, done, w, i - 1);
      var j := FirstIndex(done, w[i - 1]);
      assert (w[i - 1], w[i - 1 + 1]) in PairsOf(adj);
      assert done[j] == w[i - 1] && w[i] in adj[done[j]];
      FirstIndexBefore(done, w[i], j);
    }
  }

  lemma FinishedIsAcyclic(adj: map<int, seq<int>>, done: seq<int>)
    requires FinishedInOrder(adj, done)
    requires forall k :: k in adj ==> k in done
    ensures Acyclic(PairsOf(adj))
  {
    forall w ensures !ClosedWalk(PairsOf(adj), w) {
      if |w| >= 2 && Walk(PairsOf(adj), w) {
        assert (w[0], w[0 + 1]) in PairsOf(adj);
        FinishingDescends(adj, done, w, |w| - 1);
      }
    }
  }

  datatype Colour = White | Grey | Black

  /** What the explicit-stack search keeps: the stack is the grey path, the finished nodes are black,
      and everything an iterator has already yielded is finished or is the next node of the path. */
  ghost predicate SearchInv(adj: map<int, seq<int>>, colour: map<int, Colour>,
                            path: seq<int>, pos: seq<nat>, done: seq<int>) {
    && colour.Keys == adj.Keys
    && |path| == |pos|
    && Distinct(path)
    && (forall x :: x in adj ==> (colour[x] == Grey <==> x in path))
    && (forall x :: x in adj ==> (colour[x] == Black <==> x in done))
    && (forall i :: 0 <= i < |path| ==> path[i] in adj && pos[i] <= |adj[path[i]]|)
    && (forall i :: 0 <= i < |path| - 1 ==> path[i + 1] in adj[path[i]])
    && (forall i, k :: 0 <= i < |path| && 0 <= k < pos[i] ==>
          adj[path[i]][k] in done || (i + 1 < |path| && adj[path[i]][k] == path[i + 1]))
    && FinishedInOrder(adj, done)
  }

  ghost function Whites(colour: map<int, Colour>): set<int> {
    set x | x in colour && colour[x] == White
  }

  lemma Backtrack(adj: map<int, seq<int>>, colour: map<int, Colour>, path: seq<int>, pos: seq<nat>, done: seq<int>)
    requires SearchInv(adj, colour, path, pos, done)
    requires path != [] && pos[|pos| - 1] == |adj[path[|path| - 1]]|
    ensures var last := |path| - 1;
      SearchInv(adj, colour[path[last] := Black], path[..last], pos[..last], done + [path[last]])
      && Whites(colour[path[last] := Black]) == Whites(colour)
  {
    var last := |path| - 1;
    var done' := done + [path[last]];
    forall j | 0 <= j < |done'|
      ensures done'[j] in adj && forall n :: n in adj[done'[j]] ==> n in done'[..j]
    {
      if j < |done| {
        assert done'[..j] == done[..j];
      } else {
        assert done'[..j] == done;
      }
    }
    var top := path[last];
    assert top in path && colour[top] == Grey;
  }

  ghost function Finished(adj: map<int, seq<int>>, colour: map<int, Colour>): set<int> {
    set x | x in adj && x in colour && colour[x] == Black
  }

  lemma PushRoot(adj: map<int, seq<int>>, colour: map<int, Colour>, done: seq<int>, root: int)
    requires SearchInv(adj, colour, [], [], done)
    requires root in adj && colour[root] == White
    ensures SearchInv(adj, colour[root := Grey], [root], [0], done)
  {
  }

  lemma PushNeighbour(adj: map<int, seq<int>>, colour: map<int, Colour>, path: seq<int>, pos: seq<nat>, done: seq<int>,
                      n: int)
    requires path != [] && SearchInv(adj, colour, path, pos, done)
    requires pos[|path| - 1] < |adj[path[|path| - 1]]|
    requires n == adj[path[|path| - 1]][pos[|path| - 1]] && n in adj && n in colour && colour[n] == White
    ensures var last := |path| - 1;
      SearchInv(adj, colour[n := Grey], path + [n], pos[last := pos[last] + 1] + [0], done)
      && Whites(colour[n := Grey]) < Whites(colour)
  {
    var last := |path| - 1;
    assert n in Whites(colour) && n !in Whites(colour[n := Grey]);
    assert n !in path && n !in done;
  }

  lemma CycleFound(adj: map<int, seq<int>>, path: seq<int>, start: nat, n: int)
    requires forall i :: 0 <= i < |path| - 1 ==> path[i] in adj && path[i + 1] in adj[path[i]]
    requires Distinct(path) && start < |path| && path[start] == n
    requires path[|path| - 1] in adj && n in adj[path[|path| - 1]]
    ensures ClosedWalk(PairsOf(adj), path[start..] + [n]) && Distinct((path[start..] + [n])[1..])
  {
  }

  method Position(path: seq<int>, x: int) returns (k: nat)
    requires x in path
    ensures k < |path| && path[k] == x
  {
    k := 0;
    while path[k] != x
      invariant k < |path| && x !in path[..k]
      decreases |path| - k
    {
      k := k + 1;
      assert x in path[k..] by { assert path == path[..k] + path[k..]; }
    }
  }

  /** Resume the iterator on top of the stack until it yields a node that is not yet finished. */
  method Resume(adj: map<int, seq<int>>, colour: map<int, Colour>, path: seq<int>, pos: seq<nat>, ghost done: seq<int>)
    returns (reached: seq<nat>, hit: Option<int>)
    requires forall a, n :: a in adj && n in adj[a] ==> n in adj
    requires path != [] && SearchInv(adj, colour, path, pos, done)
    ensures |reached| == |path| && SearchInv(adj, colour, path, reached, done)
    ensures var last := |path| - 1;
      match hit
      case None => reached[last] == |adj[path[last]]|
      case Some(n) => reached[last] < |adj[path[last]]| && n == adj[path[last]][reached[last]] && n in adj
                      && colour[n] != Black
  {
    var last := |path| - 1;
    var top := path[last];
    var neighbours := adj[top];
    reached := pos;
    while reached[last] < |neighbours|
      invariant |reached| == |path| && SearchInv(adj, colour, path, reached, done)
      decreases |neighbours| - reached[last]
    {
      var neighbour := neighbours[reached[last]];
      assert top in adj && neighbour in adj[top];
      if colour[neighbour] != Black {
        return reached, Some(neighbour);
      }
      assert neighbour in done;
      reached := reached[last := reached[last] + 1];
    }
    hit := None;
  }

  lemma AllWhite(adj: map<int, seq<int>>, colour: map<int, Colour>)
    requires colour == map k | k in adj :: White
    ensures SearchInv(adj, colour, [], [], [])
  {
  }

  lemma SettledColour(adj: map<int, seq<int>>, colour: map<int, Colour>, done: seq<int>, x: int)
    requires SearchInv(adj, colour, [], [], done) && x in adj
    ensures x in colour && (colour[x] == White || (colour[x] == Black && x in done))
  {
  }

  lemma SearchedInOrder(adj: map<int, seq<int>>, colour: map<int, Colour>, done: seq<int>)
    requires SearchInv(adj, colour, [], [], done)
    ensures FinishedInOrder(adj, done)
  {
  }

  /** The search from one white root: it either finds a cycle or finishes everything it can reach. */
  method SearchFrom(adj: map<int, seq<int>>, colour0: map<int, Colour>, ghost done0: seq<int>, root: int)
    returns (colour: map<int, Colour>, ghost done: seq<int>, cycle: Option<seq<int>>)
    requires forall a, n :: a in adj && n in adj[a] ==> n in adj
    requires SearchInv(adj, colour0, [], [], done0)
    requires root in adj && root in colour0 && colour0[root] == White
    ensures cycle.Some? ==> ClosedWalk(PairsOf(adj), cycle.value) && Distinct(cycle.value[1..])
    ensures cycle.None? ==> SearchInv(adj, colour, [], [], done) && Finished(adj, colour0) + {root} <= Finished(adj, colour)
  {
    hide SearchInv;
    PushRoot(adj, colour0, done0, root);
    colour, done := colour0[root := Grey], done0;
    var path, pos := [root], [0 as nat];
    while path != []
      invariant |pos| == |path| && SearchInv(adj, colour, path, pos, done)
      invariant Finished(adj, colour0) <= Finished(adj, colour)
      invariant root in path || root in Finished(adj, colour)
      decreases Whites(colour), |path|
    {
      var last := |path| - 1;
      var hit;
      pos, hit := Resume(adj, colour, path, pos, done);
      if hit.None? {
        Backtrack(adj, colour, path, pos, done);
        colour := colour[path[last] := Black];
        done := done + [path[last]];
        path, pos := path[..last], pos[..last];
      } else if colour[hit.value] == Grey {
        var start := Position(path, hit.value);
        CycleFound(adj, path, start, hit.value);
        cycle := Some(path[start..] + [hit.value]);
        return;
      } else {
        PushNeighbour(adj, colour, path, pos, done, hit.value);
        colour := colour[hit.value := Grey];
        path, pos := path + [hit.value], pos[last := pos[last] + 1] + [0];
      }
    }
    cycle := None;
  }

  lemma CycleRefutes(pairs: Pairs, w: seq<int>)
    requires ClosedWalk(pairs, w)
    ensures !Acyclic(pairs)
  {
  }

  /** Three-colour depth-first search with an explicit stack of resumable iterators. The answer is a real
      simple cycle of the graph, and there is no answer exactly when the graph has no cycle. */
  method FindCycle(adj: map<int, seq<int>>) returns (r: Option<seq<int>>)
    requires forall a, n :: a in adj && n in adj[a] ==> n in adj
    ensures r.Some? ==> ClosedWalk(PairsOf(adj), r.value) && Distinct(r.value[1..])
    ensures r.None? <==> Acyclic(PairsOf(adj))
  {
    hide SearchInv, Acyclic, PairsOf;
    var colour: map<int, Colour> := map k | k in adj :: White;
    ghost var done: seq<int> := [];
    AllWhite(adj, colour);
    var roots := Sorted(adj.Keys);
    for i := 0 to |roots|
      invariant SearchInv(adj, colour, [], [], done)
      invariant forall j :: 0 <= j < i ==> roots[j] in Finished(adj, colour)
    {
      var root := roots[i];
      assert root in adj.Keys;
      SettledColour(adj, colour, done, root);
      if colour[root] == White {
        colour, done, r := SearchFrom(adj, colour, done, root);
        if r.Some? {
          CycleRefutes(PairsOf(adj), r.value);
          return;
        }
      }
    }
    forall k | k in adj ensures k in done {
      assert k in roots;
      assert k in Finished(adj, colour);
      SettledColour(adj, colour, done, k);
    }
    SearchedInOrder(adj, colour, done);
    FinishedIsAcyclic(adj, done);
    return None;
  }
}
