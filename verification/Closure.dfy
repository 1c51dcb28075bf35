/** The two walks over pinned component references: `_fetch_definition_closure` of quantize/components/resolve.py and
    `load_component_catalog` of quantize/persistence/closure.py. A store is a map from pinned key to definition. */
module Closure {
  import opened Collections
  import opened Diagnostics
  import opened Documents

  type Definitions = map<ComponentKey, Definition>

  /** Definitions are stored under their own identity. */
  ghost predicate KeyedByIdentity(store: Definitions) {
    forall k :: k in store ==> store[k].key == k
  }

  function KeysOf(refs: seq<ComponentRef>): (r: set<ComponentKey>)
    ensures forall k :: k in r <==> exists i :: 0 <= i < |refs| && refs[i].key == k
  {
    set i | 0 <= i < |refs| :: refs[i].key
  }

  /** The definition stored under a pins b. */
  predicate Pins(store: Definitions, a: ComponentKey, b: ComponentKey) {
    a in store && b in KeysOf(store[a].refs)
  }

  /** A chain of pins from one of the roots. */
  ghost predicate PinChain(store: Definitions, roots: set<ComponentKey>, w: seq<ComponentKey>) {
    w != [] && w[0] in roots && forall i :: 0 < i < |w| ==> Pins(store, w[i - 1], w[i])
  }

  ghost predicate Reachable(store: Definitions, roots: set<ComponentKey>, k: ComponentKey) {
    exists w :: PinChain(store, roots, w) && w[|w| - 1] == k
  }

  /** The pinned closure: what is reachable and stored. */
  ghost predicate IsClosure(store: Definitions, roots: set<ComponentKey>, fetched: Definitions) {
    && (forall k :: k in fetched <==> k in store && Reachable(store, roots, k))
    && (forall k :: k in fetched ==> fetched[k] == store[k])
  }

  /** What is reachable and not stored. */
  ghost predicate AreAbsent(store: Definitions, roots: set<ComponentKey>, missing: set<ComponentKey>) {
    forall k :: k in missing <==> k !in store && Reachable(store, roots, k)
  }

  lemma RootReachable(store: Definitions, roots: set<ComponentKey>, k: ComponentKey)
    requires k in roots
    ensures Reachable(store, roots, k)
  {
    assert PinChain(store, roots, [k]);
  }

  lemma PinReachable(store: Definitions, roots: set<ComponentKey>, a: ComponentKey, b: ComponentKey)
    requires Reachable(store, roots, a) && Pins(store, a, b)
    ensures Reachable(store, roots, b)
  {
    var w :| PinChain(store, roots, w) && w[|w| - 1] == a;
    assert PinChain(store, roots, w + [b]);
  }

  /** A set of keys that holds the roots and everything its stored members pin holds everything reachable. */
  lemma {:induction false} ChainStaysInside(store: Definitions, roots: set<ComponentKey>, inside: set<ComponentKey>, w: seq<ComponentKey>)
    requires roots <= inside && forall a, b :: a in inside && Pins(store, a, b) ==> b in inside
    requires PinChain(store, roots, w)
    ensures w[|w| - 1] in inside
  {
    var n := |w| - 1;
    if n > 0 {
      ChainStaysInside(store, roots, inside, w[..n]);
      assert Pins(store, w[n - 1], w[n]);
    }
  }

  lemma ReachableInside(store: Definitions, roots: set<ComponentKey>, inside: set<ComponentKey>, k: ComponentKey)
    requires roots <= inside && forall a, b :: a in inside && Pins(store, a, b) ==> b in inside
    requires Reachable(store, roots, k)
    ensures k in inside
  {
    var w :| PinChain(store, roots, w) && w[|w| - 1] == k;
    ChainStaysInside(store, roots, inside, w);
  }

  /** The walk so far: what was visited is reachable, and what visited definitions pin is visited or queued. */
  ghost predicate WalkInv(store: Definitions, roots: set<ComponentKey>, visited: set<ComponentKey>, queue: seq<ComponentKey>) {
    && (forall k :: k in visited ==> Reachable(store, roots, k))
    && (forall k :: k in queue ==> Reachable(store, roots, k))
    && (forall k :: k in roots ==> k in visited || k in queue)
    && (forall a, b :: a in visited && Pins(store, a, b) ==> b in visited || b in queue)
  }

  lemma WalkStarts(store: Definitions, roots: set<ComponentKey>, queue: seq<ComponentKey>)
    requires forall k :: k in queue <==> k in roots
    ensures WalkInv(store, roots, {}, queue)
  {
    forall k | k in queue ensures Reachable(store, roots, k) {
      RootReachable(store, roots, k);
    }
  }

  /** Visiting the head of the queue. */
  lemma WalkStep(store: Definitions, roots: set<ComponentKey>, visited: set<ComponentKey>, queue: seq<ComponentKey>, more: seq<ComponentKey>)
    requires WalkInv(store, roots, visited, queue) && queue != []
    requires forall k :: k in more <==> queue[0] !in visited && Pins(store, queue[0], k)
    ensures WalkInv(store, roots, visited + {queue[0]}, queue[1..] + more)
  {
    var key := queue[0];
    assert key in queue;
    assert forall k :: k in queue ==> k == key || k in queue[1..];
    assert forall k :: k in queue[1..] ==> k in queue;
    forall k | k in more ensures Reachable(store, roots, k) {
      PinReachable(store, roots, key, k);
    }
    forall a, b | a in visited + {key} && Pins(store, a, b) ensures b in visited + {key} || b in queue[1..] + more {
      if a == key && key !in visited {
        assert b in more;
      }
    }
  }

  /** With the queue empty, exactly the reachable keys were visited. */
  lemma WalkEnds(store: Definitions, roots: set<ComponentKey>, visited: set<ComponentKey>)
    requires WalkInv(store, roots, visited, [])
    ensures forall k :: k in visited <==> Reachable(store, roots, k)
  {
    var none: seq<ComponentKey> := [];
    assert forall k :: k in roots ==> k in visited || k in none;
    assert roots <= visited;
    forall k | Reachable(store, roots, k) ensures k in visited {
      ReachableInside(store, roots, visited, k);
    }
  }

  lemma SkipVisited(store: Definitions, roots: set<ComponentKey>, visited: set<ComponentKey>, queue: seq<ComponentKey>)
    requires WalkInv(store, roots, visited, queue) && queue != [] && queue[0] in visited
    ensures WalkInv(store, roots, visited, queue[1..])
  {
    WalkStep(store, roots, visited, queue, []);
    assert visited + {queue[0]} == visited;
    assert queue[1..] + [] == queue[1..];
  }

  /** The state of the fetch: what is fetched is stored, what is missing is not. */
  ghost predicate FetchInv(catalog: Definitions, roots: set<ComponentKey>, fetched: Definitions, missing: set<ComponentKey>, queue: seq<ComponentKey>) {
    && WalkInv(catalog, roots, fetched.Keys + missing, queue)
    && (forall k :: k in fetched ==> k in catalog && fetched[k] == catalog[k])
    && (forall k :: k in missing ==> k !in catalog)
  }

  lemma FetchSkips(catalog: Definitions, roots: set<ComponentKey>, fetched: Definitions, missing: set<ComponentKey>, queue: seq<ComponentKey>)
    requires FetchInv(catalog, roots, fetched, missing, queue) && queue != [] && (queue[0] in fetched || queue[0] in missing)
    ensures FetchInv(catalog, roots, fetched, missing, queue[1..])
  {
    hide WalkInv;
    SkipVisited(catalog, roots, fetched.Keys + missing, queue);
  }

  lemma FetchMisses(catalog: Definitions, roots: set<ComponentKey>, fetched: Definitions, missing: set<ComponentKey>, queue: seq<ComponentKey>)
    requires FetchInv(catalog, roots, fetched, missing, queue) && queue != [] && queue[0] !in catalog
    ensures FetchInv(catalog, roots, fetched, missing + {queue[0]}, queue[1..])
  {
    hide WalkInv;
    NothingPinned(catalog, queue[0]);
    WalkStep(catalog, roots, fetched.Keys + missing, queue, []);
    assert queue[1..] + [] == queue[1..];
    assert fetched.Keys + (missing + {queue[0]}) == fetched.Keys + missing + {queue[0]};
  }

  lemma FetchAdds(catalog: Definitions, roots: set<ComponentKey>, fetched: Definitions, missing: set<ComponentKey>, queue: seq<ComponentKey>)
    requires FetchInv(catalog, roots, fetched, missing, queue) && queue != [] && queue[0] in catalog && queue[0] !in fetched && queue[0] !in missing
    ensures FetchInv(catalog, roots, fetched[queue[0] := catalog[queue[0]]], missing, queue[1..] + Sorted(KeysOf(catalog[queue[0]].refs)))
  {
    hide WalkInv, Pins, KeysOf, FetchInv;
    var key := queue[0];
    var visited, more := fetched.Keys + missing, Sorted(KeysOf(catalog[key].refs));
    PinsAre(catalog, key);
    FetchInvParts(catalog, roots, fetched, missing, queue);
    WalkStep(catalog, roots, visited, queue, more);
    var after := fetched[key := catalog[key]];
    assert after.Keys + missing == visited + {key};
    FetchInvFrom(catalog, roots, after, missing, queue[1..] + more);
  }

  lemma FetchInvParts(catalog: Definitions, roots: set<ComponentKey>, fetched: Definitions, missing: set<ComponentKey>, queue: seq<ComponentKey>)
    requires FetchInv(catalog, roots, fetched, missing, queue)
    ensures WalkInv(catalog, roots, fetched.Keys + missing, queue)
    ensures forall k :: k in fetched ==> k in catalog && fetched[k] == catalog[k]
    ensures forall k :: k in missing ==> k !in catalog
  {
    hide WalkInv;
  }

  lemma FetchInvFrom(catalog: Definitions, roots: set<ComponentKey>, fetched: Definitions, missing: set<ComponentKey>, queue: seq<ComponentKey>)
    requires WalkInv(catalog, roots, fetched.Keys + missing, queue)
    requires forall k :: k in fetched ==> k in catalog && fetched[k] == catalog[k]
    requires forall k :: k in missing ==> k !in catalog
    ensures FetchInv(catalog, roots, fetched, missing, queue)
  {
    hide WalkInv;
  }

  lemma FewerLeft(all: set<ComponentKey>, seen: set<ComponentKey>, key: ComponentKey)
    requires key in all && key !in seen
    ensures |all - (seen + {key})| < |all - seen|
  {
    assert all - (seen + {key}) == all - seen - {key};
    assert key in all - seen;
  }

  lemma FetchEnds(catalog: Definitions, roots: set<ComponentKey>, fetched: Definitions, missing: set<ComponentKey>)
    requires FetchInv(catalog, roots, fetched, missing, [])
    ensures IsClosure(catalog, roots, fetched) && AreAbsent(catalog, roots, missing)
  {
    hide WalkInv, Reachable;
    WalkEnds(catalog, roots, fetched.Keys + missing);
    forall k ensures k in fetched <==> k in catalog && Reachable(catalog, roots, k) {
      assert k in fetched.Keys + missing <==> Reachable(catalog, roots, k);
    }
    forall k ensures k in missing <==> k !in catalog && Reachable(catalog, roots, k) {
      assert k in fetched.Keys + missing <==> Reachable(catalog, roots, k);
    }
  }

  lemma FetchStarts(catalog: Definitions, roots: set<ComponentKey>, queue: seq<ComponentKey>)
    requires forall k :: k in queue <==> k in roots
    ensures FetchInv(catalog, roots, map[], {}, queue)
  {
    hide WalkInv;
    WalkStarts(catalog, roots, queue);
    var none: Definitions := map[];
    assert none.Keys + {} == {};
  }

  /** Breadth first over the sorted pins; repeated pins in the queue are skipped when popped. */
  method FetchDefinitionClosure(catalog: Definitions, refs: seq<ComponentRef>) returns (fetched: Definitions, missing: set<ComponentKey>)
    ensures IsClosure(catalog, KeysOf(refs), fetched) && AreAbsent(catalog, KeysOf(refs), missing)
  {
    hide FetchInv, IsClosure, AreAbsent, KeysOf;
    ghost var roots := KeysOf(refs);
    fetched, missing := map[], {};
    var queue := Sorted(KeysOf(refs));
    FetchStarts(catalog, roots, queue);
    while queue != []
      invariant FetchInv(catalog, roots, fetched, missing, queue)
      decreases |catalog.Keys - fetched.Keys|, |queue|
    {
      var key := queue[0];
      if key in fetched || key in missing {
        FetchSkips(catalog, roots, fetched, missing, queue);
        queue := queue[1..];
      } else if key !in catalog {
        FetchMisses(catalog, roots, fetched, missing, queue);
        missing := missing + {key};
        queue := queue[1..];
      } else {
        FetchAdds(catalog, roots, fetched, missing, queue);
        FewerLeft(catalog.Keys, fetched.Keys, key);
        assert fetched[key := catalog[key]].Keys == fetched.Keys + {key};
        var definition := catalog[key];
        fetched := fetched[key := definition];
        queue := queue[1..] + Sorted(KeysOf(definition.refs));
      }
    }
    FetchEnds(catalog, roots, fetched, missing);
  }

  lemma NothingPinned(store: Definitions, key: ComponentKey)
    requires key !in store
    ensures forall k :: !Pins(store, key, k)
  {
  }

  lemma PinsAre(store: Definitions, key: ComponentKey)
    requires key in store
    ensures forall k :: Pins(store, key, k) <==> k in KeysOf(store[key].refs)
  {
  }

  function PinList(refs: seq<ComponentRef>): (r: seq<ComponentKey>)
    ensures forall k :: k in r <==> k in KeysOf(refs)
  {
    var r := seq(|refs|, i requires 0 <= i < |refs| => refs[i].key);
    assert forall i :: 0 <= i < |refs| ==> r[i] == refs[i].key;
    r
  }

  /** The collected definitions: one for each visited stored key. */
  ghost predicate LoadInv(store: Definitions, roots: set<ComponentKey>, visited: set<ComponentKey>, definitions: seq<Definition>, queue: seq<ComponentKey>) {
    && WalkInv(store, roots, visited, queue)
    && (forall i :: 0 <= i < |definitions| ==> OneOf(store, visited, definitions[i]))
    && (forall k :: k in visited && k in store ==> CollectedAs(definitions, k))
    && (forall i, j :: 0 <= i < j < |definitions| ==> definitions[i].key != definitions[j].key)
  }

  ghost predicate OneOf(store: Definitions, visited: set<ComponentKey>, d: Definition) {
    d.key in visited && d.key in store && d == store[d.key]
  }

  ghost predicate CollectedAs(definitions: seq<Definition>, k: ComponentKey) {
    exists i :: 0 <= i < |definitions| && definitions[i].key == k
  }

  lemma CollectedMore(store: Definitions, visited: set<ComponentKey>, definitions: seq<Definition>, key: ComponentKey, d: Definition)
    requires d.key == key && forall k :: k in visited && k in store ==> CollectedAs(definitions, k)
    ensures forall k :: k in visited + {key} && k in store ==> CollectedAs(definitions + [d], k)
  {
    var after := definitions + [d];
    assert after[|definitions|].key == key;
    forall k | k in visited + {key} && k in store ensures CollectedAs(after, k) {
      if k != key {
        assert CollectedAs(definitions, k);
        var i :| 0 <= i < |definitions| && definitions[i].key == k;
        assert after[i].key == k;
      }
    }
  }

  lemma StillOneOf(store: Definitions, visited: set<ComponentKey>, definitions: seq<Definition>, key: ComponentKey)
    requires forall i :: 0 <= i < |definitions| ==> OneOf(store, visited, definitions[i])
    ensures forall i :: 0 <= i < |definitions| ==> OneOf(store, visited + {key}, definitions[i])
  {
    forall i | 0 <= i < |definitions| ensures OneOf(store, visited + {key}, definitions[i]) {
      assert OneOf(store, visited, definitions[i]);
    }
  }

  /** A stored definition joins the collection, and its key is new there. */
  lemma CollectsStored(store: Definitions, visited: set<ComponentKey>, definitions: seq<Definition>, key: ComponentKey)
    requires key in store && store[key].key == key && key !in visited
    requires forall i :: 0 <= i < |definitions| ==> OneOf(store, visited, definitions[i])
    requires forall i, j :: 0 <= i < j < |definitions| ==> definitions[i].key != definitions[j].key
    ensures var after := definitions + [store[key]];
      && (forall i :: 0 <= i < |after| ==> OneOf(store, visited + {key}, after[i]))
      && (forall i, j :: 0 <= i < j < |after| ==> after[i].key != after[j].key)
  {
    StillOneOf(store, visited, definitions, key);
    forall i | 0 <= i < |definitions| ensures definitions[i].key != key {
      assert OneOf(store, visited, definitions[i]);
    }
  }

  lemma FewerUnvisited(store: Definitions, visited: set<ComponentKey>, key: ComponentKey)
    requires key !in visited
    ensures key !in store ==> store.Keys - (visited + {key}) == store.Keys - visited
    ensures key in store ==> |store.Keys - (visited + {key})| < |store.Keys - visited|
  {
    if key in store {
      assert store.Keys - (visited + {key}) == store.Keys - visited - {key};
      assert key in store.Keys - visited;
    }
  }

  lemma VisitsMissing(store: Definitions, roots: set<ComponentKey>, visited: set<ComponentKey>, definitions: seq<Definition>, queue: seq<ComponentKey>)
    requires LoadInv(store, roots, visited, definitions, queue) && queue != [] && queue[0] !in visited && queue[0] !in store
    ensures LoadInv(store, roots, visited + {queue[0]}, definitions, queue[1..])
  {
    hide WalkInv, Pins, KeysOf, OneOf, CollectedAs;
    NothingPinned(store, queue[0]);
    WalkStep(store, roots, visited, queue, []);
    assert queue[1..] + [] == queue[1..];
    StillOneOf(store, visited, definitions, queue[0]);
  }

  lemma VisitsStored(store: Definitions, roots: set<ComponentKey>, visited: set<ComponentKey>, definitions: seq<Definition>, queue: seq<ComponentKey>)
    requires KeyedByIdentity(store) && LoadInv(store, roots, visited, definitions, queue) && queue != [] && queue[0] !in visited && queue[0] in store
    ensures LoadInv(store, roots, visited + {queue[0]}, definitions + [store[queue[0]]], queue[1..] + PinList(store[queue[0]].refs))
  {
    hide WalkInv, Pins, KeysOf, OneOf, CollectedAs, PinList;
    var key := queue[0];
    PinsAre(store, key);
    WalkStep(store, roots, visited, queue, PinList(store[key].refs));
    CollectsStored(store, visited, definitions, key);
    CollectedMore(store, visited, definitions, key, store[key]);
  }

  lemma LoadSkips(store: Definitions, roots: set<ComponentKey>, visited: set<ComponentKey>, definitions: seq<Definition>, queue: seq<ComponentKey>)
    requires LoadInv(store, roots, visited, definitions, queue) && queue != [] && queue[0] in visited
    ensures LoadInv(store, roots, visited, definitions, queue[1..])
  {
    hide WalkInv;
    SkipVisited(store, roots, visited, queue);
  }

  lemma LoadStarts(store: Definitions, roots: set<ComponentKey>, queue: seq<ComponentKey>)
    requires forall k :: k in queue <==> k in roots
    ensures LoadInv(store, roots, {}, [], queue)
  {
    hide WalkInv;
    WalkStarts(store, roots, queue);
  }

  lemma LoadEnds(store: Definitions, roots: set<ComponentKey>, visited: set<ComponentKey>, definitions: seq<Definition>, catalog: Definitions)
    requires LoadInv(store, roots, visited, definitions, [])
    requires forall k :: k in catalog <==> CollectedAs(definitions, k)
    requires forall i :: 0 <= i < |definitions| ==> definitions[i].key in catalog && catalog[definitions[i].key] == definitions[i]
    ensures IsClosure(store, roots, catalog)
  {
    hide WalkInv, Reachable;
    WalkEnds(store, roots, visited);
    forall k ensures k in catalog <==> k in store && Reachable(store, roots, k) {
      if CollectedAs(definitions, k) {
        var i :| 0 <= i < |definitions| && definitions[i].key == k;
        assert OneOf(store, visited, definitions[i]);
      }
    }
    forall k | k in catalog ensures catalog[k] == store[k] {
      assert CollectedAs(definitions, k);
      var i :| 0 <= i < |definitions| && definitions[i].key == k;
      assert OneOf(store, visited, definitions[i]);
    }
  }

  /** Breadth first in document order, tracking visited keys; an absent definition is left out. The definitions it
      collects have distinct keys, so that building the catalog from them never raises. */
  method LoadComponentCatalog(store: Definitions, refs: seq<ComponentRef>) returns (catalog: Definitions)
    requires KeyedByIdentity(store)
    ensures IsClosure(store, KeysOf(refs), catalog)
  {
    hide LoadInv, IsClosure, KeyedByIdentity, CollectedAs;
    ghost var roots := KeysOf(refs);
    var definitions: seq<Definition> := [];
    var visited: set<ComponentKey> := {};
    var queue := PinList(refs);
    LoadStarts(store, roots, queue);
    while queue != []
      invariant LoadInv(store, roots, visited, definitions, queue)
      decreases |store.Keys - visited|, |queue|
    {
      var key := queue[0];
      if key in visited {
        LoadSkips(store, roots, visited, definitions, queue);
        queue := queue[1..];
        continue;
      }
      FewerUnvisited(store, visited, queue[0]);
      if queue[0] in store {
        VisitsStored(store, roots, visited, definitions, queue);
      } else {
        VisitsMissing(store, roots, visited, definitions, queue);
      }
      queue := queue[1..];
      visited := visited + {key};
      if key in store {
        var definition := store[key];
        definitions := definitions + [definition];
        queue := queue + PinList(definition.refs);
      }
    }
    LoadDistinct(store, roots, visited, definitions);
    catalog := CatalogOf(definitions);
    LoadEnds(store, roots, visited, definitions, catalog);
  }

  lemma LoadDistinct(store: Definitions, roots: set<ComponentKey>, visited: set<ComponentKey>, definitions: seq<Definition>)
    requires LoadInv(store, roots, visited, definitions, [])
    ensures forall i, j :: 0 <= i < j < |definitions| ==> definitions[i].key != definitions[j].key
  {
  }

  /** `ComponentCatalog(definitions)`, for definitions with distinct keys. */
  method CatalogOf(definitions: seq<Definition>) returns (catalog: Definitions)
    requires forall i, j :: 0 <= i < j < |definitions| ==> definitions[i].key != definitions[j].key
    ensures forall k :: k in catalog <==> CollectedAs(definitions, k)
    ensures forall i :: 0 <= i < |definitions| ==> definitions[i].key in catalog && catalog[definitions[i].key] == definitions[i]
  {
    catalog := map[];
    for n := 0 to |definitions|
      invariant forall k :: k in catalog <==> CollectedAs(definitions[..n], k)
      invariant forall i :: 0 <= i < n ==> definitions[i].key in catalog && catalog[definitions[i].key] == definitions[i]
    {
      CollectedSnoc(definitions, n);
      catalog := catalog[definitions[n].key := definitions[n]];
    }
    assert definitions[..|definitions|] == definitions;
  }

  lemma CollectedSnoc(definitions: seq<Definition>, n: nat)
    requires n < |definitions|
    ensures forall k :: CollectedAs(definitions[..n + 1], k) <==> CollectedAs(definitions[..n], k) || definitions[n].key == k
  {
    var longer, shorter := definitions[..n + 1], definitions[..n];
    assert longer[n] == definitions[n];
    forall k ensures CollectedAs(longer, k) <==> CollectedAs(shorter, k) || definitions[n].key == k {
      if CollectedAs(shorter, k) {
        var i :| 0 <= i < |shorter| && shorter[i].key == k;
        assert longer[i].key == k;
      }
      if CollectedAs(longer, k) {
        var i :| 0 <= i < |longer| && longer[i].key == k;
        if i < n { assert shorter[i].key == k; }
      }
    }
  }

  /** Reachability only looks at the closure. */
  lemma {:induction false} SameChains(store: Definitions, roots: set<ComponentKey>, catalog: Definitions, w: seq<ComponentKey>)
    requires IsClosure(store, roots, catalog)
    ensures PinChain(store, roots, w) <==> PinChain(catalog, roots, w)
  {
    hide Reachable;
    if w != [] && w[0] in roots {
      if forall i :: 0 < i < |w| ==> Pins(catalog, w[i - 1], w[i]) {
        assert forall i :: 0 < i < |w| ==> Pins(store, w[i - 1], w[i]);
      }
      if PinChain(store, roots, w) {
        forall i | 0 < i < |w| ensures Pins(catalog, w[i - 1], w[i]) {
          PrefixReachable(store, roots, w, i - 1);
          assert Pins(store, w[i - 1], w[i]);
        }
      }
    }
  }

  lemma PrefixReachable(store: Definitions, roots: set<ComponentKey>, w: seq<ComponentKey>, i: nat)
    requires PinChain(store, roots, w) && i < |w|
    ensures Reachable(store, roots, w[i])
  {
    assert PinChain(store, roots, w[..i + 1]);
  }

  /** The loaded catalog and the whole store have the same closure and the same absent pins, so that whatever is resolved
      from them is resolved alike. */
  lemma ClosuresAgree(store: Definitions, roots: set<ComponentKey>, catalog: Definitions)
    requires IsClosure(store, roots, catalog)
    ensures forall k :: Reachable(catalog, roots, k) <==> Reachable(store, roots, k)
    ensures IsClosure(catalog, roots, catalog)
    ensures forall missing :: AreAbsent(store, roots, missing) <==> AreAbsent(catalog, roots, missing)
  {
    forall k ensures Reachable(catalog, roots, k) <==> Reachable(store, roots, k) {
      if Reachable(store, roots, k) {
        var w :| PinChain(store, roots, w) && w[|w| - 1] == k;
        SameChains(store, roots, catalog, w);
        assert PinChain(catalog, roots, w);
      }
      if Reachable(catalog, roots, k) {
        var w :| PinChain(catalog, roots, w) && w[|w| - 1] == k;
        SameChains(store, roots, catalog, w);
        assert PinChain(store, roots, w);
      }
    }
  }

  /** The closure is determined by the store and the pins. */
  lemma ClosureUnique(store: Definitions, roots: set<ComponentKey>, a: Definitions, b: Definitions)
    requires IsClosure(store, roots, a) && IsClosure(store, roots, b)
    ensures a == b
  {
    hide Reachable;
    forall k ensures k in a.Keys <==> k in b.Keys {
      assert k in a <==> k in store && Reachable(store, roots, k);
      assert k in b <==> k in store && Reachable(store, roots, k);
    }
    assert a.Keys == b.Keys;
    forall k | k in a ensures a[k] == b[k] {
      assert k in b.Keys;
      assert a[k] == store[k] && b[k] == store[k];
    }
  }
}
