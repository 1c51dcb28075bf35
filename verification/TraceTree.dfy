/** Per-instant trace trees assembled from the flat event stream: quantize/tracing/tree.py. */
module TraceTrees {
  import opened Collections
  import opened Documents
  import opened Engine
  import opened Evaluator
  import opened Market

  /** Events of one node or component instance, and what is nested in it. */
  datatype TreeNode = TreeNode(id: NodeId, path: Path, events: seq<NodeEvent>, children: seq<TreeNode>)

  datatype Root = NodeRoot(tree: TreeNode) | EngineRoot(events: seq<EngineEvent>)

  /** All events of one instant. */
  datatype TraceTree = TraceTree(instant: Instant, roots: seq<Root>)

  /** Where an event belongs: the component instances down to its node. */
  function Place(e: NodeEvent): (p: Path)
    ensures p != []
  {
    e.componentPath + [e.node]
  }

  /* ---- building ---- */

  /** The sibling with an id. */
  function IndexOf(level: seq<TreeNode>, id: NodeId): (r: nat)
    ensures r <= |level|
    ensures r < |level| ==> level[r].id == id
    ensures forall i :: 0 <= i < r ==> level[i].id != id
  {
    if level == [] then 0
    else if level[0].id == id then 0
    else
      var r := IndexOf(level[1..], id);
      assert forall i :: 0 <= i < |level[1..]| ==> level[1..][i] == level[i + 1];
      r + 1
  }

  /** The sibling with an id, created empty and last on first use. */
  function WithSibling(level: seq<TreeNode>, parent: Path, id: NodeId): (r: seq<TreeNode>)
    ensures IndexOf(level, id) < |r| && r[IndexOf(level, id)].id == id
    ensures |level| <= |r| && r[..|level|] == level
  {
    if IndexOf(level, id) < |level| then level else level + [TreeNode(id, parent, [], [])]
  }

  /** Materialise the chain of instances and append the event at its end. */
  function Insert(level: seq<TreeNode>, parent: Path, rest: Path, e: NodeEvent): seq<TreeNode>
    requires rest != []
    decreases |rest|
  {
    var siblings := WithSibling(level, parent, rest[0]);
    var k := IndexOf(level, rest[0]);
    var b := siblings[k];
    siblings[k := if |rest| == 1 then b.(events := b.events + [e])
                  else b.(children := Insert(b.children, parent + [rest[0]], rest[1..], e))]
  }

  /** The node roots of one instant. */
  function Forest(events: seq<NodeEvent>): seq<TreeNode> {
    if events == [] then []
    else
      var n := |events| - 1;
      Insert(Forest(events[..n]), [], Place(events[n]), events[n])
  }

  function NodeEventsAt(events: seq<TraceEvent>, t: Instant): seq<NodeEvent> {
    if events == [] then []
    else
      var last := events[|events| - 1];
      NodeEventsAt(events[..|events| - 1], t) + if last.FromNode? && last.at == t then [last.event] else []
  }

  function EngineEventsAt(events: seq<TraceEvent>, t: Instant): seq<EngineEvent> {
    if events == [] then []
    else
      var last := events[|events| - 1];
      EngineEventsAt(events[..|events| - 1], t) + if last.FromEngine? && last.at == t then [last.payload] else []
  }

  function NodeRoots(forest: seq<TreeNode>): seq<Root> {
    seq(|forest|, i requires 0 <= i < |forest| => NodeRoot(forest[i]))
  }

  /** Engine events come after every node root of the same instant. */
  function TreeAt(events: seq<TraceEvent>, t: Instant): TraceTree {
    TraceTree(t, NodeRoots(Forest(NodeEventsAt(events, t)))
                 + if EngineEventsAt(events, t) == [] then [] else [EngineRoot(EngineEventsAt(events, t))])
  }

  function Instants(events: seq<TraceEvent>): (r: set<Instant>)
    ensures forall t :: t in r <==> exists i :: 0 <= i < |events| && events[i].at == t
  {
    set i | 0 <= i < |events| :: events[i].at
  }

  function TraceTreesOf(events: seq<TraceEvent>): seq<TraceTree> {
    var instants := Sorted(Instants(events));
    seq(|instants|, i requires 0 <= i < |instants| => TreeAt(events, instants[i]))
  }

  /** `build_trace_trees`. */
  method BuildTraceTrees(events: seq<TraceEvent>) returns (trees: seq<TraceTree>)
    ensures trees == TraceTreesOf(events)
  {
    hide TreeAt;
    trees := [];
    var instants := Sorted(Instants(events));
    for i := 0 to |instants|
      invariant trees == TraceTreesOf(events)[..i]
    {
      var tree := BuildTree(events, instants[i]);
      trees := trees + [tree];
    }
  }

  method BuildTree(events: seq<TraceEvent>, instant: Instant) returns (tree: TraceTree)
    ensures tree == TreeAt(events, instant)
  {
    hide Insert;
    var forest: seq<TreeNode>, engine: seq<EngineEvent> := [], [];
    for i := 0 to |events|
      invariant forest == Forest(NodeEventsAt(events[..i], instant))
      invariant engine == EngineEventsAt(events[..i], instant)
    {
      StreamSnoc(events, i, instant);
      match events[i]
      case FromEngine(at, payload) =>
        if at == instant {
          engine := engine + [payload];
        }
      case FromNode(at, event) =>
        if at == instant {
          ForestSnoc(NodeEventsAt(events[..i], instant), event);
          forest := Insert(forest, [], Place(event), event);
        }
    }
    assert events[..|events|] == events;
    return TraceTree(instant, NodeRoots(forest) + if engine == [] then [] else [EngineRoot(engine)]);
  }

  lemma StreamSnoc(events: seq<TraceEvent>, i: nat, t: Instant)
    requires i < |events|
    ensures NodeEventsAt(events[..i + 1], t) ==
            if events[i].FromNode? && events[i].at == t then NodeEventsAt(events[..i], t) + [events[i].event] else NodeEventsAt(events[..i], t)
    ensures EngineEventsAt(events[..i + 1], t) ==
            if events[i].FromEngine? && events[i].at == t then EngineEventsAt(events[..i], t) + [events[i].payload] else EngineEventsAt(events[..i], t)
  {
    assert events[..i + 1][..i] == events[..i];
  }

  lemma ForestSnoc(events: seq<NodeEvent>, e: NodeEvent)
    ensures Forest(events + [e]) == Insert(Forest(events), [], Place(e), e)
  {
    hide Insert;
    assert (events + [e])[..|events|] == events;
  }

  /* ---- nothing lost, nothing duplicated ---- */

  function EventsIn(level: seq<TreeNode>): seq<NodeEvent> {
    if level == [] then [] else EventsIn(level[..|level| - 1]) + level[|level| - 1].events + EventsIn(level[|level| - 1].children)
  }

  /** Replacing one sibling by one that holds one more event. */
  lemma {:induction false} ReplaceAdds(level: seq<TreeNode>, k: nat, b: TreeNode, e: NodeEvent)
    requires k < |level|
    requires multiset(b.events) + multiset(EventsIn(b.children))
          == multiset(level[k].events) + multiset(EventsIn(level[k].children)) + multiset{e}
    ensures multiset(EventsIn(level[k := b])) == multiset(EventsIn(level)) + multiset{e}
  {
    hide EventsIn;
    var n := |level| - 1;
    var after := level[k := b];
    EventsInSplit(level);
    EventsInSplit(after);
    assert after[k] == b;
    if k == n {
      assert after[..n] == level[..n];
      Regroup(multiset(EventsIn(level[..n])), multiset(b.events), multiset(EventsIn(b.children)),
              multiset(level[k].events), multiset(EventsIn(level[k].children)), e);
    } else {
      assert after[..n] == level[..n][k := b];
      assert after[n] == level[n];
      ReplaceAdds(level[..n], k, b, e);
    }
  }

  lemma Regroup(front: multiset<NodeEvent>, a: multiset<NodeEvent>, b: multiset<NodeEvent>,
                a': multiset<NodeEvent>, b': multiset<NodeEvent>, e: NodeEvent)
    requires a + b == a' + b' + multiset{e}
    ensures front + a + b == front + a' + b' + multiset{e}
  {
    assert front + a + b == front + (a + b);
  }

  lemma EventsInSplit(level: seq<TreeNode>)
    requires level != []
    ensures var n := |level| - 1;
      multiset(EventsIn(level)) == multiset(EventsIn(level[..n])) + multiset(level[n].events) + multiset(EventsIn(level[n].children))
  {
  }

  lemma SiblingAddsNothing(level: seq<TreeNode>, parent: Path, id: NodeId)
    ensures EventsIn(WithSibling(level, parent, id)) == EventsIn(level)
  {
    if IndexOf(level, id) == |level| {
      var added := TreeNode(id, parent, [], []);
      assert (level + [added])[..|level|] == level;
      assert EventsIn([]) == [];
    }
  }

  /** One insertion adds exactly the inserted event. */
  lemma {:induction false} InsertAdds(level: seq<TreeNode>, parent: Path, rest: Path, e: NodeEvent)
    requires rest != []
    ensures multiset(EventsIn(Insert(level, parent, rest, e))) == multiset(EventsIn(level)) + multiset{e}
    decreases |rest|
  {
    hide EventsIn;
    var siblings := WithSibling(level, parent, rest[0]);
    var k := IndexOf(level, rest[0]);
    var b := siblings[k];
    SiblingAddsNothing(level, parent, rest[0]);
    if |rest| == 1 {
      ReplaceAdds(siblings, k, b.(events := b.events + [e]), e);
    } else {
      InsertAdds(b.children, parent + [rest[0]], rest[1..], e);
      ReplaceAdds(siblings, k, b.(children := Insert(b.children, parent + [rest[0]], rest[1..], e)), e);
    }
  }

  /** The forest of an instant holds its node events, each exactly once. */
  lemma {:induction false} ForestConserves(events: seq<NodeEvent>)
    ensures multiset(EventsIn(Forest(events))) == multiset(events)
  {
    hide EventsIn, Insert;
    if events == [] {
      NoEvents();
    } else {
      var n := |events| - 1;
      ForestConserves(events[..n]);
      InsertAdds(Forest(events[..n]), [], Place(events[n]), events[n]);
      assert events == events[..n] + [events[n]];
    }
  }

  lemma NoEvents()
    ensures EventsIn([]) == []
  {
  }

  /* ---- everything in its own place, in emission order ---- */

  /** The events at a place, and those nested below it, in emission order. */
  function EventsOf(events: seq<NodeEvent>, place: Path): seq<NodeEvent> {
    if events == [] then []
    else
      var last := events[|events| - 1];
      EventsOf(events[..|events| - 1], place) + if Place(last) == place then [last] else []
  }

  function Below(events: seq<NodeEvent>, place: Path): (r: seq<NodeEvent>)
    ensures forall e :: e in r ==> place < Place(e)
  {
    if events == [] then []
    else
      var last := events[|events| - 1];
      Below(events[..|events| - 1], place) + if place < Place(last) then [last] else []
  }

  /** Identifiers at one depth, in order of first emission. */
  function FirstSeen(events: seq<NodeEvent>, depth: nat): seq<NodeId>
    requires forall e :: e in events ==> depth < |Place(e)|
  {
    if events == [] then []
    else
      var last := events[|events| - 1];
      assert forall e :: e in events[..|events| - 1] ==> e in events;
      var before := FirstSeen(events[..|events| - 1], depth);
      if Place(last)[depth] in before then before else before + [Place(last)[depth]]
  }

  function IdsOf(level: seq<TreeNode>): (r: seq<NodeId>)
    ensures |r| == |level| && forall i :: 0 <= i < |level| ==> r[i] == level[i].id
  {
    seq(|level|, i requires 0 <= i < |level| => level[i].id)
  }

  /** The level below a place shows exactly these events: siblings are distinct and in first-emission order, each holds the
      events of its own place in emission order, and the levels below do the same. */
  ghost predicate Shows(level: seq<TreeNode>, place: Path, events: seq<NodeEvent>)
    decreases level
  {
    && (forall e :: e in events ==> place < Place(e))
    && IdsOf(level) == FirstSeen(events, |place|)
    && Distinct(IdsOf(level))
    && forall i :: 0 <= i < |level| ==> ShowsNode(level[i], place, events)
  }

  ghost predicate ShowsNode(b: TreeNode, place: Path, events: seq<NodeEvent>)
    decreases b
  {
    && b.path == place
    && b.events == EventsOf(events, place + [b.id])
    && Shows(b.children, place + [b.id], Below(events, place + [b.id]))
  }

  lemma EventsOfSnoc(events: seq<NodeEvent>, e: NodeEvent, place: Path)
    ensures EventsOf(events + [e], place) == if Place(e) == place then EventsOf(events, place) + [e] else EventsOf(events, place)
    ensures Below(events + [e], place) == if place < Place(e) then Below(events, place) + [e] else Below(events, place)
  {
    assert (events + [e])[..|events|] == events;
  }

  lemma FirstSeenSnoc(events: seq<NodeEvent>, e: NodeEvent, depth: nat)
    requires forall x :: x in events + [e] ==> depth < |Place(x)|
    ensures forall x :: x in events ==> depth < |Place(x)|
    ensures e in events + [e]
    ensures FirstSeen(events + [e], depth) ==
            var before := FirstSeen(events, depth); if Place(e)[depth] in before then before else before + [Place(e)[depth]]
  {
    assert (events + [e])[..|events|] == events;
    forall x | x in events ensures depth < |Place(x)| {
      assert x in events + [e];
    }
    assert (events + [e])[|events|] == e;
  }

  /** A sibling the event does not pass through is unaffected. */
  lemma OtherSibling(b: TreeNode, place: Path, events: seq<NodeEvent>, e: NodeEvent)
    requires ShowsNode(b, place, events) && place < Place(e) && Place(e)[|place|] != b.id
    ensures ShowsNode(b, place, events + [e])
  {
    hide Shows;
    EventsOfSnoc(events, e, place + [b.id]);
    var q := place + [b.id];
    assert q[|place|] == b.id;
    assert !(q <= Place(e));
  }

  /** A place nothing has passed through yet shows nothing. */
  lemma {:induction false} UnseenShowsNothing(events: seq<NodeEvent>, place: Path, id: NodeId)
    requires forall e :: e in events ==> place < Place(e)
    requires id !in FirstSeen(events, |place|)
    ensures EventsOf(events, place + [id]) == [] && Below(events, place + [id]) == []
  {
    if events != [] {
      var n := |events| - 1;
      var last := events[n];
      assert last in events;
      assert forall e :: e in events[..n] ==> e in events;
      UnseenShowsNothing(events[..n], place, id);
      var q := place + [id];
      assert q[|place|] == id;
      assert !(q <= Place(last));
    }
  }

  lemma EmptyNode(place: Path, events: seq<NodeEvent>, id: NodeId)
    requires forall e :: e in events ==> place < Place(e)
    requires id !in FirstSeen(events, |place|)
    ensures ShowsNode(TreeNode(id, place, [], []), place, events)
  {
    UnseenShowsNothing(events, place, id);
    var none: seq<TreeNode> := [];
    assert IdsOf(none) == [];
  }

  /** The event arrives at a node of its path. */
  lemma {:induction false} ReachedNode(b: TreeNode, place: Path, rest: Path, events: seq<NodeEvent>, e: NodeEvent)
    requires ShowsNode(b, place, events) && rest != [] && Place(e) == place + rest && rest[0] == b.id
    ensures ShowsNode(if |rest| == 1 then b.(events := b.events + [e])
                      else b.(children := Insert(b.children, place + [rest[0]], rest[1..], e)), place, events + [e])
    decreases |rest|, 0
  {
    hide Shows, Insert, EventsOf, Below, Place;
    var q := place + [b.id];
    EventsOfSnoc(events, e, q);
    assert Place(e) == q + rest[1..];
    if |rest| == 1 {
      assert Place(e) == q;
    } else {
      assert q < Place(e);
      assert |Place(e)| > |q|;
      InsertShows(b.children, q, rest[1..], Below(events, q), e);
    }
  }

  /** Inserting an event shows it, and everything shown before. */
  lemma {:induction false} InsertShows(level: seq<TreeNode>, place: Path, rest: Path, events: seq<NodeEvent>, e: NodeEvent)
    requires Shows(level, place, events) && rest != [] && Place(e) == place + rest
    ensures Shows(Insert(level, place, rest, e), place, events + [e])
    decreases |rest|, 1
  {
    hide ShowsNode, FirstSeen;
    var id := rest[0];
    assert place < Place(e) && Place(e)[|place|] == id;
    FirstSeenSnoc(events, e, |place|);
    var k := IndexOf(level, id);
    var siblings := WithSibling(level, place, id);
    IndexIsMember(level, id);
    if k == |level| {
      EmptyNode(place, events, id);
    }
    var b := siblings[k];
    assert ShowsNode(b, place, events);
    ReachedNode(b, place, rest, events, e);
    var after := Insert(level, place, rest, e);
    assert IdsOf(after) == IdsOf(siblings);
    forall i | 0 <= i < |after| ensures ShowsNode(after[i], place, events + [e]) {
      if i != k {
        assert after[i] == level[i];
        assert level[i].id == IdsOf(level)[i];
        OtherSibling(level[i], place, events, e);
      }
    }
    SiblingIds(level, place, id);
  }

  lemma IndexIsMember(level: seq<TreeNode>, id: NodeId)
    ensures IndexOf(level, id) < |level| <==> id in IdsOf(level)
  {
    if id in IdsOf(level) {
      var i :| 0 <= i < |level| && IdsOf(level)[i] == id;
      assert level[i].id == id;
    }
  }

  lemma SiblingIds(level: seq<TreeNode>, place: Path, id: NodeId)
    requires Distinct(IdsOf(level))
    ensures IdsOf(WithSibling(level, place, id)) == if id in IdsOf(level) then IdsOf(level) else IdsOf(level) + [id]
    ensures Distinct(IdsOf(WithSibling(level, place, id)))
  {
    IndexIsMember(level, id);
  }

  /** The trees of an instant put every node event at its own place, in emission order, with siblings in order of first
      emission. */
  lemma {:induction false} ForestShows(events: seq<NodeEvent>)
    ensures Shows(Forest(events), [], events)
  {
    hide Insert;
    if events == [] {
      var none: seq<TreeNode> := [];
      assert IdsOf(none) == [];
    } else {
      var n := |events| - 1;
      ForestShows(events[..n]);
      assert [] + Place(events[n]) == Place(events[n]);
      InsertShows(Forest(events[..n]), [], Place(events[n]), events[..n], events[n]);
      assert events == events[..n] + [events[n]];
    }
  }

  /** Every tree node stands at its component path and holds only events of its own node. */
  ghost predicate Located(level: seq<TreeNode>, path: Path)
    decreases level
  {
    forall i :: 0 <= i < |level| ==> LocatedNode(level[i], path)
  }

  ghost predicate LocatedNode(b: TreeNode, path: Path)
    decreases b
  {
    && b.path == path && (forall e :: e in b.events ==> e.componentPath == path && e.node == b.id)
    && Located(b.children, path + [b.id])
  }

  lemma {:induction false} PlacedEvents(events: seq<NodeEvent>, path: Path, id: NodeId)
    ensures forall e :: e in EventsOf(events, path + [id]) ==> e.componentPath == path && e.node == id
  {
    if events != [] {
      PlacedEvents(events[..|events| - 1], path, id);
      var last := events[|events| - 1];
      if Place(last) == path + [id] {
        assert Place(last)[..|path|] == path && Place(last)[|path|] == id;
      }
    }
  }

  lemma {:induction false} ShownIsLocated(level: seq<TreeNode>, place: Path, events: seq<NodeEvent>)
    requires Shows(level, place, events)
    ensures Located(level, place)
    decreases level, 1
  {
    forall i | 0 <= i < |level| ensures LocatedNode(level[i], place) {
      PlacedEvents(events, place, level[i].id);
      ShownIsLocated(level[i].children, place + [level[i].id], Below(events, place + [level[i].id]));
    }
  }

  /** The trees of an instant hold every event under its own component path and node. */
  lemma ForestLocates(events: seq<NodeEvent>)
    ensures Located(Forest(events), []) && multiset(EventsIn(Forest(events))) == multiset(events)
  {
    hide Shows, Located, Forest;
    ForestShows(events);
    ShownIsLocated(Forest(events), [], events);
    ForestConserves(events);
  }

  /* ---- across instants ---- */

  /** Trees come in strictly ascending order of instant, one for each instant at which something was emitted. */
  lemma TreesAscend(events: seq<TraceEvent>)
    ensures var trees := TraceTreesOf(events);
      && (forall i, j :: 0 <= i < j < |trees| ==> trees[i].instant < trees[j].instant)
      && (forall e :: e in events ==> exists i :: 0 <= i < |trees| && trees[i].instant == e.at)
  {
    hide TreeAt;
    TreeInstants(events);
    var instants, trees := Sorted(Instants(events)), TraceTreesOf(events);
    forall e | e in events ensures exists i :: 0 <= i < |trees| && trees[i].instant == e.at {
      var k :| 0 <= k < |events| && events[k] == e;
      assert e.at in instants;
      var i :| 0 <= i < |instants| && instants[i] == e.at;
      assert trees[i].instant == e.at;
    }
  }

  lemma TreeInstants(events: seq<TraceEvent>)
    ensures forall i :: 0 <= i < |TraceTreesOf(events)| ==> TraceTreesOf(events)[i].instant == Sorted(Instants(events))[i]
  {
  }

  lemma CountSnoc<T>(front: seq<T>, last: T, e: T)
    ensures multiset(front + [last])[e] == multiset(front)[e] + if last == e then 1 else 0
  {
  }

  /** Grouping by instant splits the stream: a node event goes to its own instant's nodes. */
  lemma {:induction false} NodesConserve(events: seq<TraceEvent>, e: TraceEvent)
    requires e.FromNode?
    ensures multiset(events)[e] == multiset(NodeEventsAt(events, e.at))[e.event]
  {
    if events != [] {
      var n := |events| - 1;
      var front, last := events[..n], events[n];
      NodesConserve(front, e);
      var before := NodeEventsAt(front, e.at);
      var found := NodeEventsAt(events, e.at);
      assert found == before + if last.FromNode? && last.at == e.at then [last.event] else [];
      hide NodeEventsAt;
      assert events == front + [last];
      CountSnoc(front, last, e);
      if last.FromNode? && last.at == e.at {
        CountSnoc(before, last.event, e.event);
      } else {
        assert found == before && last != e;
      }
    }
  }

  /** ... and an engine event to its own instant's engine root. */
  lemma {:induction false} EngineConserves(events: seq<TraceEvent>, e: TraceEvent)
    requires e.FromEngine?
    ensures multiset(events)[e] == multiset(EngineEventsAt(events, e.at))[e.payload]
  {
    if events != [] {
      var n := |events| - 1;
      var front, last := events[..n], events[n];
      EngineConserves(front, e);
      var before := EngineEventsAt(front, e.at);
      var found := EngineEventsAt(events, e.at);
      assert found == before + if last.FromEngine? && last.at == e.at then [last.payload] else [];
      hide EngineEventsAt;
      assert events == front + [last];
      CountSnoc(front, last, e);
      if last.FromEngine? && last.at == e.at {
        CountSnoc(before, last.payload, e.payload);
      } else {
        assert found == before && last != e;
      }
    }
  }

  /** How often the trees hold an event: at its own instant, among the node roots or in the engine root. */
  function HeldIn(tree: TraceTree, e: TraceEvent): nat {
    if tree.instant != e.at then 0
    else
      match e
      case FromNode(_, event) => multiset(EventsIn(NodesOf(tree.roots)))[event]
      case FromEngine(_, payload) => multiset(EngineOf(tree.roots))[payload]
  }

  function NodesOf(roots: seq<Root>): seq<TreeNode> {
    if roots == [] then []
    else NodesOf(roots[..|roots| - 1]) + if roots[|roots| - 1].NodeRoot? then [roots[|roots| - 1].tree] else []
  }

  function EngineOf(roots: seq<Root>): seq<EngineEvent> {
    if roots == [] then []
    else EngineOf(roots[..|roots| - 1]) + if roots[|roots| - 1].EngineRoot? then roots[|roots| - 1].events else []
  }

  lemma {:induction false} RootsOfForest(forest: seq<TreeNode>)
    ensures NodesOf(NodeRoots(forest)) == forest && EngineOf(NodeRoots(forest)) == []
  {
    if forest != [] {
      var n := |forest| - 1;
      RootsOfForest(forest[..n]);
      assert NodeRoots(forest)[..n] == NodeRoots(forest[..n]);
      assert forest == forest[..n] + [forest[n]];
    }
  }

  lemma TreeRoots(events: seq<TraceEvent>, t: Instant)
    ensures NodesOf(TreeAt(events, t).roots) == Forest(NodeEventsAt(events, t))
    ensures EngineOf(TreeAt(events, t).roots) == EngineEventsAt(events, t)
  {
    hide Forest, NodeEventsAt, EngineEventsAt;
    var roots := NodeRoots(Forest(NodeEventsAt(events, t)));
    RootsOfForest(Forest(NodeEventsAt(events, t)));
    var engine := EngineEventsAt(events, t);
    if engine != [] {
      assert (roots + [EngineRoot(engine)])[..|roots|] == roots;
    } else {
      assert roots + [] == roots;
    }
  }

  /** Nothing is lost and nothing duplicated: the tree of an event's own instant holds it exactly as often as the stream, and
      no other tree holds it. */
  lemma TreesConserve(events: seq<TraceEvent>, e: TraceEvent, i: nat)
    requires i < |TraceTreesOf(events)|
    ensures HeldIn(TraceTreesOf(events)[i], e) == if TraceTreesOf(events)[i].instant == e.at then multiset(events)[e] else 0
  {
    hide Forest, EventsIn, NodesOf, EngineOf, NodeEventsAt, EngineEventsAt, TreeAt;
    TreeInstants(events);
    var t := Sorted(Instants(events))[i];
    TreeRoots(events, t);
    if e.FromNode? {
      NodesConserve(events, e);
    } else {
      EngineConserves(events, e);
    }
    ForestConserves(NodeEventsAt(events, t));
  }
}
