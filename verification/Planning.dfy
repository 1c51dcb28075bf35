/** The evaluation order: quantize/evaluator/plan.py, `topological_order`. */
module Planning {
  import opened Collections
  import opened Cycles

  /** The nodes of todo that wait for no other node of todo. */
  function Ready(todo: set<int>, pairs: Pairs): (r: set<int>)
    ensures r <= todo
  {
    set n | n in todo && forall m :: m in todo ==> !Feeds(pairs, m, n)
  }

  /** Repeatedly run the least ready node: the order as a function of the node set and the set of
      distinct dependency pairs, and of nothing else. It stops early exactly when a cycle blocks it. */
  function PlanFrom(todo: set<int>, pairs: Pairs): (order: seq<int>)
    ensures Distinct(order) && forall n :: n in order ==> n in todo
    decreases |todo|
  {
    var ready := Ready(todo, pairs);
    if ready == {} then []
    else
      var n := MinOf(ready);
      assert |todo - {n}| < |todo|;
      var rest := PlanFrom(todo - {n}, pairs);
      assert n !in rest;
      [n] + rest
  }

  /** b takes an input from a. */
  predicate Feeds(pairs: Pairs, a: int, b: int) {
    (a, b) in pairs
  }

  /** Nothing runs before something it waits for. */
  ghost predicate Respects(pairs: Pairs, order: seq<int>) {
    forall i, j :: 0 <= i <= j < |order| ==> !Feeds(pairs, order[j], order[i])
  }

  /** A permutation of the nodes in which every dependency precedes its dependents. */
  ghost predicate IsTopological(ids: set<int>, pairs: Pairs, order: seq<int>) {
    && Distinct(order)
    && (forall n :: n in order <==> n in ids)
    && Respects(pairs, order)
  }

  /** Lexicographic order on evaluation orders. */
  ghost predicate LexLeq(a: seq<int>, b: seq<int>) {
    a == b || exists k :: 0 <= k < |a| && k < |b| && a[..k] == b[..k] && a[k] < b[k]
  }

  lemma HeadIsReady(ids: set<int>, pairs: Pairs, order: seq<int>)
    requires IsTopological(ids, pairs, order) && ids != {}
    ensures order != [] && order[0] in Ready(ids, pairs)
    ensures IsTopological(ids - {order[0]}, pairs, order[1..])
  {
    var x := MinOf(ids);
    assert x in order;
    var head := order[0];
    forall m | m in ids ensures !Feeds(pairs, m, head) {
      assert m in order;
    }
  }

  /** The plan is a topological order whenever there is one, and no topological order is smaller. */
  lemma {:induction false} PlanIsLeast(ids: set<int>, pairs: Pairs, order: seq<int>)
    requires IsTopological(ids, pairs, order)
    ensures IsTopological(ids, pairs, PlanFrom(ids, pairs))
    ensures LexLeq(PlanFrom(ids, pairs), order)
    decreases |ids|
  {
    var plan := PlanFrom(ids, pairs);
    if ids == {} {
      HeadIn(order);
    } else {
      HeadIsReady(ids, pairs, order);
      var n := MinOf(Ready(ids, pairs));
      if n == order[0] {
        PlanIsLeast(ids - {n}, pairs, order[1..]);
        PrependReady(ids, pairs, n, PlanFrom(ids - {n}, pairs));
        PrependLex(n, PlanFrom(ids - {n}, pairs), order[1..]);
        assert order == [n] + order[1..];
      } else {
        var moved := MoveToFront(ids, pairs, order, n);
        PlanIsLeast(ids - {n}, pairs, moved);
        PrependReady(ids, pairs, n, PlanFrom(ids - {n}, pairs));
        assert plan[..0] == order[..0] && plan[0] < order[0];
      }
    }
  }

  lemma PrependReady(ids: set<int>, pairs: Pairs, n: int, rest: seq<int>)
    requires n in Ready(ids, pairs) && IsTopological(ids - {n}, pairs, rest)
    ensures IsTopological(ids, pairs, [n] + rest)
  {
    forall m | m in [n] + rest ensures !Feeds(pairs, m, n) {
      assert m == n || m in rest;
      assert m in ids;
    }
    PrependRespects(pairs, n, rest);
  }

  lemma PrependLex(n: int, a: seq<int>, b: seq<int>)
    requires LexLeq(a, b)
    ensures LexLeq([n] + a, [n] + b)
  {
    if a != b {
      var k :| 0 <= k < |a| && k < |b| && a[..k] == b[..k] && a[k] < b[k];
      assert ([n] + a)[..k + 1] == [n] + a[..k];
      assert ([n] + b)[..k + 1] == [n] + b[..k];
      assert ([n] + a)[k + 1] < ([n] + b)[k + 1];
    }
  }

  /** Removing a node from a topological order leaves a topological order of the others. */
  lemma MoveToFront(ids: set<int>, pairs: Pairs, order: seq<int>, n: int) returns (moved: seq<int>)
    requires IsTopological(ids, pairs, order) && n in ids
    ensures IsTopological(ids - {n}, pairs, moved)
  {
    var k := FirstIndex(order, n);
    moved := order[..k] + order[k + 1..];
    forall x ensures x in moved <==> x in ids - {n} {
      assert order == order[..k] + [n] + order[k + 1..];
    }
    forall i, j | 0 <= i <= j < |moved| ensures !Feeds(pairs, moved[j], moved[i]) {
      assert moved[i] == order[if i < k then i else i + 1];
      assert moved[j] == order[if j < k then j else j + 1];
    }
  }

  /* ---- an acyclic graph always has a ready node ---- */

  ghost predicate Within(pairs: Pairs, ids: set<int>) {
    forall a, b :: (a, b) in pairs ==> a in ids && b in ids
  }

  /** Walking backwards from any node of a set without ready nodes must close a cycle. */
  lemma {:induction false} BackwardWalkCloses(todo: set<int>, pairs: Pairs, w: seq<int>)
    requires Ready(todo, pairs) == {}
    requires w != [] && Distinct(w) && Walk(pairs, w) && forall x :: x in w ==> x in todo
    ensures !Acyclic(pairs)
    decreases |todo| - |w|
  {
    var head := w[0];
    assert head in todo && head !in Ready(todo, pairs);
    var p :| p in todo && Feeds(pairs, p, head);
    var longer := [p] + w;
    assert Walk(pairs, longer) by {
      forall i | 0 <= i < |longer| - 1 ensures (longer[i], longer[i + 1]) in pairs {
        if i > 0 { assert longer[i] == w[i - 1] && longer[i + 1] == w[i - 1 + 1]; }
      }
    }
    if p in w {
      var k := FirstIndex(w, p);
      assert ClosedWalk(pairs, longer[..k + 2]);
    } else {
      DistinctBound(longer, todo);
      BackwardWalkCloses(todo, pairs, longer);
    }
  }

  lemma {:induction false} AcyclicPlanIsTopological(ids: set<int>, pairs: Pairs)
    requires Acyclic(pairs)
    ensures IsTopological(ids, pairs, PlanFrom(ids, pairs))
    decreases |ids|
  {
    var ready := Ready(ids, pairs);
    if ready == {} {
      EmptySet(ids);
      if ids != {} {
        var x := MinOf(ids);
        BackwardWalkCloses(ids, pairs, [x]);
      }
    } else {
      var n := MinOf(ready);
      AcyclicPlanIsTopological(ids - {n}, pairs);
      PrependReady(ids, pairs, n, PlanFrom(ids - {n}, pairs));
    }
  }

  lemma {:induction false} WalkGoesForward(ids: set<int>, pairs: Pairs, order: seq<int>, w: seq<int>, i: nat)
    requires IsTopological(ids, pairs, order) && Within(pairs, ids)
    requires Walk(pairs, w) && i < |w| && |w| >= 2
    ensures w[0] in order && w[i] in order && (i > 0 ==> FirstIndex(order, w[0]) < FirstIndex(order, w[i]))
  {
    var first, second := w[0], w[0 + 1];
    assert Feeds(pairs, first, second) && first in ids && first in order;
    if i > 0 {
      WalkGoesForward(ids, pairs, order, w, i - 1);
      var here, there := w[i - 1], w[i - 1 + 1];
      assert Feeds(pairs, here, there) && there in ids && there in order;
      var a, b := FirstIndex(order, w[i - 1]), FirstIndex(order, w[i]);
      assert order[a] == here && order[b] == there;
    }
  }

  /** The planner completes exactly on acyclic graphs, whatever the order lists and edges came in. */
  lemma PlanCompleteIffAcyclic(ids: set<int>, pairs: Pairs)
    requires Within(pairs, ids)
    ensures |PlanFrom(ids, pairs)| == |ids| <==> Acyclic(pairs)
    ensures Acyclic(pairs) ==> IsTopological(ids, pairs, PlanFrom(ids, pairs))
  {
    var plan := PlanFrom(ids, pairs);
    if Acyclic(pairs) {
      AcyclicPlanIsTopological(ids, pairs);
      DistinctLength(plan, ids);
    }
    if |plan| == |ids| {
      PlanRespects(ids, pairs);
      DistinctBound(plan, ids);
      assert forall n :: n in plan <==> n in ids;
      assert IsTopological(ids, pairs, plan);
      forall w ensures !ClosedWalk(pairs, w) {
        if |w| >= 2 && Walk(pairs, w) {
          WalkGoesForward(ids, pairs, plan, w, |w| - 1);
        }
      }
    }
  }

  lemma {:induction false} DistinctLength(s: seq<int>, ids: set<int>)
    requires Distinct(s) && forall x :: x in s <==> x in ids
    ensures |s| == |ids|
    decreases |s|
  {
    if s == [] {
      EmptySet(ids);
    } else {
      var head := s[0];
      assert head in s;
      forall x ensures x in s[1..] <==> x in ids - {head} {
        if x in ids - {head} { assert x in s; }
        if x in s[1..] { assert x in s; }
      }
      DistinctLength(s[1..], ids - {head});
      assert |ids| == |ids - {head}| + 1;
    }
  }

  lemma {:induction false} PlanRespects(ids: set<int>, pairs: Pairs)
    ensures Respects(pairs, PlanFrom(ids, pairs))
    decreases |ids|
  {
    var ready := Ready(ids, pairs);
    if ready != {} {
      var n := MinOf(ready);
      var rest := PlanFrom(ids - {n}, pairs);
      PlanRespects(ids - {n}, pairs);
      forall m | m in [n] + rest ensures !Feeds(pairs, m, n) {
        assert m == n || m in rest;
        assert m in ids;
      }
      PrependRespects(pairs, n, rest);
    }
  }

  lemma PrependRespects(pairs: Pairs, n: int, rest: seq<int>)
    requires Respects(pairs, rest) && forall m :: m in [n] + rest ==> !Feeds(pairs, m, n)
    ensures Respects(pairs, [n] + rest)
  {
    var order := [n] + rest;
    forall i, j | 0 <= i <= j < |order| ensures !Feeds(pairs, order[j], order[i]) {
      if i > 0 {
        assert order[i] == rest[i - 1] && order[j] == rest[j - 1];
      } else {
        var x := order[j];
        assert x in order;
      }
    }
  }
}

/** `topological_order` itself. */
module Kahn {
  import opened Collections
  import opened Cycles
  import opened Documents
  import opened Planning

  function Preds(done: set<NodeId>, pairs: Pairs, n: NodeId): (r: set<NodeId>)
    ensures r <= done
  {
    set m | m in done && Feeds(pairs, m, n)
  }

  lemma PredsAdd(done: set<NodeId>, pairs: Pairs, m: NodeId, n: NodeId)
    requires m !in done
    ensures |Preds(done + {m}, pairs, n)| == |Preds(done, pairs, n)| + (if Feeds(pairs, m, n) then 1 else 0)
  {
    if Feeds(pairs, m, n) {
      assert Preds(done + {m}, pairs, n) == Preds(done, pairs, n) + {m};
    } else {
      assert Preds(done + {m}, pairs, n) == Preds(done, pairs, n);
    }
  }

  /** The distinct dependents of a node, sorted. */
  function Dependents(ids: set<NodeId>, pairs: Pairs, n: NodeId): (r: seq<NodeId>)
    ensures Ascending(r) && forall d :: d in r <==> d in ids && Feeds(pairs, n, d)
  {
    Sorted(set d | d in ids && Feeds(pairs, n, d))
  }

  lemma ReadyIffNoPreds(todo: set<NodeId>, pairs: Pairs, n: NodeId)
    requires n in todo
    ensures n in Ready(todo, pairs) <==> |Preds(todo, pairs, n)| == 0
  {
    if n in Ready(todo, pairs) {
      assert Preds(todo, pairs, n) == {};
    }
    if |Preds(todo, pairs, n)| == 0 {
      assert forall m :: m in todo && Feeds(pairs, m, n) ==> m in Preds(todo, pairs, n);
    }
  }

  /** Every node still to run is counted by the dependencies it still waits for. */
  ghost predicate CountsWaits(indegree: map<NodeId, int>, todo: set<NodeId>, pairs: Pairs) {
    todo <= indegree.Keys && forall n :: n in todo ==> indegree[n] == |Preds(todo, pairs, n)|
  }

  lemma CountMore(ids: set<NodeId>, pairs: Pairs, done: set<NodeId>, source: NodeId, before: map<NodeId, int>, after: map<NodeId, int>)
    requires before.Keys == ids == after.Keys && source !in done
    requires forall n :: n in ids ==> before[n] == |Preds(done, pairs, n)|
    requires forall n :: n in ids ==> after[n] == before[n] + (if n in Dependents(ids, pairs, source) then 1 else 0)
    ensures forall n :: n in ids ==> after[n] == |Preds(done + {source}, pairs, n)|
  {
    forall n | n in ids ensures after[n] == |Preds(done + {source}, pairs, n)| {
      PredsAdd(done, pairs, source, n);
    }
  }

  lemma NoPreds(ids: set<NodeId>, pairs: Pairs)
    ensures forall n :: |Preds({}, pairs, n)| == 0
  {
    forall n ensures |Preds({}, pairs, n)| == 0 {
      assert Preds({}, pairs, n) == {};
    }
  }

  ghost predicate Counted(indegree: map<NodeId, int>, ids: set<NodeId>, done: set<NodeId>, pairs: Pairs) {
    indegree.Keys == ids && forall n :: n in ids ==> indegree[n] == |Preds(done, pairs, n)|
  }

  ghost predicate Listed(dependents: map<NodeId, seq<NodeId>>, ids: set<NodeId>, done: set<NodeId>, pairs: Pairs) {
    dependents.Keys == ids && done <= ids && forall n :: n in done ==> dependents[n] == Dependents(ids, pairs, n)
  }

  lemma CountingStarts(ids: set<NodeId>, pairs: Pairs, dependents: map<NodeId, seq<NodeId>>, indegree: map<NodeId, int>)
    requires dependents.Keys == ids && indegree == map n | n in ids :: 0
    ensures Counted(indegree, ids, {}, pairs) && Listed(dependents, ids, {}, pairs)
  {
    NoPreds(ids, pairs);
  }

  lemma CountingStep(ids: set<NodeId>, pairs: Pairs, done: set<NodeId>, source: NodeId, dependents: map<NodeId, seq<NodeId>>,
                     before: map<NodeId, int>, after: map<NodeId, int>)
    requires Counted(before, ids, done, pairs) && Listed(dependents, ids, done, pairs) && source in ids && source !in done
    requires after.Keys == before.Keys
    requires forall n :: n in before ==> after[n] == before[n] + (if n in Dependents(ids, pairs, source) then 1 else 0)
    ensures Counted(after, ids, done + {source}, pairs)
    ensures Listed(dependents[source := Dependents(ids, pairs, source)], ids, done + {source}, pairs)
  {
    hide Dependents, Preds;
    CountMore(ids, pairs, done, source, before, after);
  }

  lemma ShiftAllowed(ids: set<NodeId>, pairs: Pairs, done: set<NodeId>, source: NodeId, indegree: map<NodeId, int>)
    requires Counted(indegree, ids, done, pairs)
    ensures Ascending(Dependents(ids, pairs, source)) && forall d :: d in Dependents(ids, pairs, source) ==> d in indegree
  {
  }

  /** Lines 42-46: dependents and indegrees from the distinct pairs. */
  method BuildCounts(ids: set<NodeId>, pairs: Pairs) returns (dependents: map<NodeId, seq<NodeId>>, indegree: map<NodeId, int>)
    requires Within(pairs, ids)
    ensures Listed(dependents, ids, ids, pairs) && Counted(indegree, ids, ids, pairs)
  {
    hide Preds, ToSet, Counted, Listed, Dependents, Ascending;
    dependents := map n | n in ids :: [];
    indegree := map n | n in ids :: 0;
    CountingStarts(ids, pairs, dependents, indegree);
    var sources := Sorted(ids);
    ghost var done: set<NodeId> := {};
    SortedSet(ids);
    for i := 0 to |sources|
      invariant done == ToSet(sources[..i])
      invariant Listed(dependents, ids, done, pairs) && Counted(indegree, ids, done, pairs)
    {
      var source := sources[i];
      assert source in ids;
      PrefixSet(sources, i);
      FreshNext(sources, i);
      var successors := Dependents(ids, pairs, source);
      ShiftAllowed(ids, pairs, done, source, indegree);
      ghost var before := indegree;
      indegree := Shift(indegree, successors, 1);
      CountingStep(ids, pairs, done, source, dependents, before, indegree);
      dependents := dependents[source := successors];
      done := done + {source};
    }
  }

  /** indegree[d] += step for every d of an ascending list. */
  method Shift(indegree: map<NodeId, int>, dependents: seq<NodeId>, step: int) returns (r: map<NodeId, int>)
    requires Ascending(dependents) && forall d :: d in dependents ==> d in indegree
    ensures r.Keys == indegree.Keys
    ensures forall n :: n in indegree ==> r[n] == indegree[n] + (if n in dependents then step else 0)
  {
    r := indegree;
    for j := 0 to |dependents|
      invariant r.Keys == indegree.Keys
      invariant forall n :: n in indegree ==> r[n] == indegree[n] + (if n in dependents[..j] then step else 0)
    {
      var d := dependents[j];
      assert d in dependents && d !in dependents[..j];
      assert forall x :: x in dependents[..j + 1] <==> x in dependents[..j] || x == d;
      r := r[d := r[d] + step];
    }
    assert dependents[..|dependents|] == dependents;
  }

  /** Lines 54-57: release the dependents of a node that has just run. */
  method Release(indegree0: map<NodeId, int>, ready0: set<NodeId>, dependents: seq<NodeId>)
    returns (indegree: map<NodeId, int>, ready: set<NodeId>)
    requires Ascending(dependents) && forall d :: d in dependents ==> d in indegree0
    ensures indegree.Keys == indegree0.Keys
    ensures forall n :: n in indegree0 ==> indegree[n] == indegree0[n] - (if n in dependents then 1 else 0)
    ensures forall n :: n in ready <==> n in ready0 || (n in dependents && indegree[n] == 0)
  {
    indegree, ready := indegree0, ready0;
    for j := 0 to |dependents|
      invariant indegree.Keys == indegree0.Keys
      invariant forall n :: n in indegree0 ==> indegree[n] == indegree0[n] - (if n in dependents[..j] then 1 else 0)
      invariant forall n :: n in ready <==> n in ready0 || (n in dependents[..j] && indegree0[n] == 1)
    {
      var d := dependents[j];
      assert d in dependents && d !in dependents[..j];
      assert forall x :: x in dependents[..j + 1] <==> x in dependents[..j] || x == d;
      indegree := indegree[d := indegree[d] - 1];
      if indegree[d] == 0 {
        ready := ready + {d};
      }
    }
    assert dependents[..|dependents|] == dependents;
  }

  /** Running the least ready node keeps the counts exact and the heap equal to the ready set. */
  lemma RunStep(todo: set<NodeId>, pairs: Pairs, node: NodeId, indegree: map<NodeId, int>, after: map<NodeId, int>,
                heap: set<NodeId>, ids: set<NodeId>)
    requires node in Ready(todo, pairs) && todo <= ids && CountsWaits(indegree, todo, pairs) && indegree.Keys == ids == after.Keys
    requires forall n :: n in ids ==> after[n] == indegree[n] - (if n in Dependents(ids, pairs, node) then 1 else 0)
    requires forall d :: d in Dependents(ids, pairs, node) ==> d in todo
    requires forall n :: n in heap <==>
      n in Ready(todo, pairs) - {node} || (n in Dependents(ids, pairs, node) && after[n] == 0)
    ensures CountsWaits(after, todo - {node}, pairs) && heap == Ready(todo - {node}, pairs)
  {
    hide Dependents, Ready;
    var rest := todo - {node};
    assert rest + {node} == todo;
    forall n | n in rest ensures after[n] == |Preds(rest, pairs, n)| {
      PredsAdd(rest, pairs, node, n);
    }
    ReadyWithin(todo, pairs);
    ReadyWithin(rest, pairs);
    NotSelf(todo, pairs, node);
    forall n ensures n in heap <==> n in Ready(rest, pairs) {
      if n in rest {
        PredsAdd(rest, pairs, node, n);
        ReadyIffNoPreds(rest, pairs, n);
        ReadyIffNoPreds(todo, pairs, n);
      }
    }
  }

  lemma ReadyWithin(todo: set<NodeId>, pairs: Pairs)
    ensures Ready(todo, pairs) <= todo
  {
  }

  lemma NotSelf(todo: set<NodeId>, pairs: Pairs, node: NodeId)
    requires node in Ready(todo, pairs)
    ensures node in todo && !Feeds(pairs, node, node)
  {
  }

  /** What has already run waits for nothing that is still to run. */
  ghost predicate DoneFirst(ids: set<NodeId>, todo: set<NodeId>, pairs: Pairs) {
    forall a, b :: a in todo && b in ids - todo ==> !Feeds(pairs, a, b)
  }

  lemma DoneFirstStep(ids: set<NodeId>, todo: set<NodeId>, pairs: Pairs, node: NodeId)
    requires todo <= ids && DoneFirst(ids, todo, pairs) && node in Ready(todo, pairs)
    ensures DoneFirst(ids, todo - {node}, pairs)
    ensures forall d :: d in Dependents(ids, pairs, node) ==> d in todo
  {
  }

  lemma PlanHead(todo: set<NodeId>, pairs: Pairs)
    ensures Ready(todo, pairs) == {} ==> PlanFrom(todo, pairs) == []
    ensures Ready(todo, pairs) != {} ==>
      PlanFrom(todo, pairs) == [MinOf(Ready(todo, pairs))] + PlanFrom(todo - {MinOf(Ready(todo, pairs))}, pairs)
  {
  }

  /** The state of the main loop. */
  ghost predicate KahnInv(ids: set<NodeId>, pairs: Pairs, todo: set<NodeId>, indegree: map<NodeId, int>, ready: set<NodeId>) {
    && todo <= ids && indegree.Keys == ids && DoneFirst(ids, todo, pairs)
    && CountsWaits(indegree, todo, pairs) && ready == Ready(todo, pairs)
  }

  lemma KahnStarts(ids: set<NodeId>, pairs: Pairs, indegree: map<NodeId, int>, ready: set<NodeId>)
    requires Counted(indegree, ids, ids, pairs)
    requires ready == set n | n in ids && n in indegree && indegree[n] == 0
    ensures KahnInv(ids, pairs, ids, indegree, ready)
  {
    hide Preds;
    forall n ensures n in ready <==> n in Ready(ids, pairs) {
      if n in ids { ReadyIffNoPreds(ids, pairs, n); }
    }
  }

  lemma KahnUse(ids: set<NodeId>, pairs: Pairs, todo: set<NodeId>, indegree: map<NodeId, int>, ready: set<NodeId>,
                dependents: map<NodeId, seq<NodeId>>, node: NodeId)
    requires KahnInv(ids, pairs, todo, indegree, ready) && node in ready && Listed(dependents, ids, ids, pairs)
    ensures node in todo && ready == Ready(todo, pairs) && node in dependents && dependents[node] == Dependents(ids, pairs, node)
    ensures Ascending(dependents[node]) && forall d :: d in dependents[node] ==> d in indegree
  {
    NotSelf(todo, pairs, node);
  }

  lemma KahnStep(ids: set<NodeId>, pairs: Pairs, todo: set<NodeId>, indegree: map<NodeId, int>, ready: set<NodeId>, node: NodeId,
                 after: map<NodeId, int>, heap: set<NodeId>)
    requires KahnInv(ids, pairs, todo, indegree, ready) && node in ready && after.Keys == indegree.Keys
    requires forall n :: n in indegree ==> after[n] == indegree[n] - (if n in Dependents(ids, pairs, node) then 1 else 0)
    requires forall n :: n in heap <==> n in ready - {node} || (n in Dependents(ids, pairs, node) && after[n] == 0)
    ensures KahnInv(ids, pairs, todo - {node}, after, heap)
  {
    hide Dependents, Ready, CountsWaits, DoneFirst;
    DoneFirstStep(ids, todo, pairs, node);
    RunStep(todo, pairs, node, indegree, after, heap, ids);
  }

  /** Kahn's algorithm with a heap of ready nodes. It answers with the plan, or with nothing where the source
      raises: on duplicate ids, on an unknown endpoint, and on a cycle, and in no other case. */
  method TopologicalOrder(nodes: seq<Node>, edges: seq<Edge>) returns (r: Option<seq<NodeId>>)
    ensures r.Some? <==> UniqueIds(nodes) && Within(EdgePairs(edges), NodeIds(nodes)) && Acyclic(EdgePairs(edges))
    ensures r.Some? ==> r.value == PlanFrom(NodeIds(nodes), EdgePairs(edges))
  {
    hide Ready, Dependents, PlanFrom, KahnInv, Listed, Counted, Acyclic, NodeIds, EdgePairs;
    var ids := NodeIds(nodes);
    UniqueIdsCount(nodes);
    if |ids| != |nodes| {
      return None;
    }
    var pairs := EdgePairs(edges);
    if exists p :: p in pairs && !(p.0 in ids && p.1 in ids) {
      return None;
    }
    assert Within(pairs, ids);
    PlanCompleteIffAcyclic(ids, pairs);
    var dependents, indegree := BuildCounts(ids, pairs);
    var ready := set n | n in ids && n in indegree && indegree[n] == 0;
    KahnStarts(ids, pairs, indegree, ready);
    ghost var todo := ids;
    var order: seq<NodeId> := [];
    while ready != {}
      invariant KahnInv(ids, pairs, todo, indegree, ready)
      invariant order + PlanFrom(todo, pairs) == PlanFrom(ids, pairs)
      decreases |todo|
    {
      PlanHead(todo, pairs);
      var node := MinOf(ready);
      KahnUse(ids, pairs, todo, indegree, ready, dependents, node);
      ghost var before, heap := indegree, ready;
      order := order + [node];
      indegree, ready := Release(indegree, ready - {node}, dependents[node]);
      KahnStep(ids, pairs, todo, before, heap, node, indegree, ready);
      todo := todo - {node};
    }
    KahnEnds(ids, pairs, todo, indegree, ready);
    assert order == PlanFrom(ids, pairs);
    if |order| != |nodes| {
      return None;
    }
    return Some(order);
  }

  lemma KahnEnds(ids: set<NodeId>, pairs: Pairs, todo: set<NodeId>, indegree: map<NodeId, int>, ready: set<NodeId>)
    requires KahnInv(ids, pairs, todo, indegree, ready) && ready == {}
    ensures PlanFrom(todo, pairs) == []
  {
    PlanHead(todo, pairs);
  }

  lemma NodeIdsSnoc(nodes: seq<Node>)
    requires nodes != []
    ensures var n := |nodes| - 1;
      NodeIds(nodes) == NodeIds(nodes[..n]) + {nodes[n].id}
  {
    var n := |nodes| - 1;
    var last := nodes[n];
    assert forall x :: x in nodes <==> x in nodes[..n] || x == last;
  }

  lemma UniqueIdsSnoc(nodes: seq<Node>)
    requires nodes != []
    ensures var n := |nodes| - 1;
      UniqueIds(nodes) <==> UniqueIds(nodes[..n]) && nodes[n].id !in NodeIds(nodes[..n])
  {
    var n := |nodes| - 1;
    var last := nodes[n];
    if last.id in NodeIds(nodes[..n]) {
      var m :| m in nodes[..n] && m.id == last.id;
      var i :| 0 <= i < n && nodes[i] == m;
      assert nodes[i].id == nodes[n].id;
    } else {
      forall i | 0 <= i < n ensures nodes[i].id != last.id {
        var m := nodes[i];
        assert m == nodes[..n][i];
        assert m in nodes[..n];
      }
    }
    assert UniqueIds(nodes) ==> UniqueIds(nodes[..n]);
  }

  lemma {:induction false} UniqueIdsCount(nodes: seq<Node>)
    ensures |NodeIds(nodes)| <= |nodes|
    ensures |NodeIds(nodes)| == |nodes| <==> UniqueIds(nodes)
  {
    hide NodeIds, UniqueIds;
    if nodes == [] {
      NoNodes(nodes);
    } else {
      UniqueIdsCount(nodes[..|nodes| - 1]);
      NodeIdsSnoc(nodes);
      UniqueIdsSnoc(nodes);
    }
  }

  lemma NoNodes(nodes: seq<Node>)
    requires nodes == []
    ensures NodeIds(nodes) == {} && UniqueIds(nodes)
  {
  }

  ghost predicate Connects(edges: seq<Edge>, a: NodeId, b: NodeId) {
    exists e :: e in edges && e.src == a && e.dst == b
  }

  /** The plan ignores how the document lists its nodes and edges, and ignores parallel edges. */
  lemma PlanIgnoresPresentation(nodes: seq<Node>, edges: seq<Edge>, nodes': seq<Node>, edges': seq<Edge>)
    requires forall x :: x in NodeIds(nodes) <==> x in NodeIds(nodes')
    requires forall a, b :: Connects(edges, a, b) <==> Connects(edges', a, b)
    ensures PlanFrom(NodeIds(nodes), EdgePairs(edges)) == PlanFrom(NodeIds(nodes'), EdgePairs(edges'))
  {
    assert NodeIds(nodes) == NodeIds(nodes');
    PairsConnect(edges);
    PairsConnect(edges');
    assert EdgePairs(edges) == EdgePairs(edges');
  }

  lemma PairsConnect(edges: seq<Edge>)
    ensures forall a, b :: (a, b) in EdgePairs(edges) <==> Connects(edges, a, b)
  {
    forall a, b ensures (a, b) in EdgePairs(edges) <==> Connects(edges, a, b) {
      if Connects(edges, a, b) {
        var e :| e in edges && e.src == a && e.dst == b;
        assert (e.src, e.dst) in EdgePairs(edges);
      }
    }
  }
}
