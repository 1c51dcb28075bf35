/** Grouping a document's nodes into a component changes nothing that a backtest records but its trace and the paths in its
    diagnostics. */
module GroupedBacktests {
  import opened Closure
  import opened Collections
  import opened Diagnostics
  import opened Documents
  import opened Engine
  import opened Evaluator
  import opened Fills
  import opened FillLoops
  import opened Flattening
  import opened GroupedDocuments
  import opened GroupedEvaluations
  import opened GroupedFlows
  import opened GroupedRuns
  import opened Grouping
  import opened LookAhead
  import opened Market
  import opened MemoRuns
  import opened Portfolio
  import opened Preflight
  import Reconciliation
  import opened Regrouping
  import Resolution
  import opened Schedule
  import opened SeriesNodes
  import opened StrategyEvaluation
  import opened Typing
  import Validation
  import opened Warmup

  /* ---- the warm-up ---- */

  /** What a leaf declares depends on its type and parameters. */
  lemma {:induction false} WarmupOfLeaf(cat: Catalog, inst: Instance, path: Path, wires: Wires, rel: Path)
    ensures WarmupAt(cat, inst, rel).Some? ==> LeafAt(cat, inst, path, wires, rel).Some?
    ensures LeafAt(cat, inst, path, wires, rel).Some? ==>
      var leaf := LeafAt(cat, inst, path, wires, rel).value;
      WarmupAt(cat, inst, rel) == (match cat.Resolve(leaf.typeId, leaf.version) case Resolved(i) => Some(i.warmup(leaf.params)) case _ => None)
    decreases rel
  {
    hide FlatInput, InputNames, PassedOn;
    if rel != [] && rel[0] in inst.Ids() && NodeOf(inst.Nodes(), rel[0]).Component? && rel[0] in inst.children {
      var id := rel[0];
      WarmupOfLeaf(cat, inst.children[id], path + [id], ChildWires(inst, path, wires, id), rel[1..]);
    }
  }

  lemma SameWarmupAt(cat: Catalog, inst: Instance, g: Group, p: Path)
    requires Cuttable(inst, g)
    ensures WarmupAt(cat, inst, p).Some? ==> WarmupAt(cat, Grouped(cat, inst, g), Into(g, p)) == WarmupAt(cat, inst, p)
    ensures WarmupAt(cat, Grouped(cat, inst, g), p).Some? ==> WarmupAt(cat, inst, OutOf(g, p)) == WarmupAt(cat, Grouped(cat, inst, g), p)
  {
    hide Cuttable, Grouped, LeafAt, WarmupAt;
    var h := Grouped(cat, inst, g);
    WarmupOfLeaf(cat, inst, [], map[], p);
    WarmupOfLeaf(cat, h, [], map[], p);
    if WarmupAt(cat, inst, p).Some? {
      GroupedLeaf(cat, inst, g, p);
      WarmupOfLeaf(cat, h, [], map[], Into(g, p));
    }
    if WarmupAt(cat, h, p).Some? {
      UngroupedLeaf(cat, inst, g, p);
      WarmupOfLeaf(cat, inst, [], map[], OutOf(g, p));
    }
  }

  /** Grouping keeps the strategy-wide warm-up. */
  lemma GroupingKeepsWarmup(cat: Catalog, inst: Instance, g: Group)
    requires Cuttable(inst, g)
    ensures WarmupTotal(cat, Grouped(cat, inst, g)) == WarmupTotal(cat, inst)
  {
    hide Cuttable, Grouped, WarmupAt, WarmupTotal;
    var h := Grouped(cat, inst, g);
    TotalIsLargest(cat, inst);
    TotalIsLargest(cat, h);
    if p :| WarmupAt(cat, inst, p) == Some(WarmupTotal(cat, inst)) {
      SameWarmupAt(cat, inst, g, p);
    }
    if q :| WarmupAt(cat, h, q) == Some(WarmupTotal(cat, h)) {
      SameWarmupAt(cat, inst, g, q);
    }
  }

  /* ---- the configuration ---- */

  ghost predicate Groups(cfg: Config, g: Group) {
    && ConfigOk(cfg) && PreflightOf(cfg.catalog, cfg.document, cfg.components).Ok()
    && CanGroup(cfg.document, cfg.components, g) && PlaceBlind(cfg.catalog)
  }

  /** The same run of the grouped document. */
  ghost function Regrouped(cfg: Config, g: Group): (r: Config)
    requires ConfigOk(cfg)
  {
    cfg.(document := After(cfg.catalog, cfg.document, cfg.components, g), components := StoreAfter(cfg.catalog, cfg.document, cfg.components, g))
  }

  lemma CleanResolves(cat: Catalog, doc: Document, store: Definitions)
    requires KeyedByIdentity(store) && PreflightOf(cat, doc, store).Ok()
    ensures Resolution.Resolvable(doc) && Resolution.Resolve(cat, doc, store).Ok()
    ensures RootOf(doc, Resolution.Resolve(cat, doc, store).instances) == RootInstance(cat, doc, store)
  {
    hide KeyedByIdentity, SemanticsFaults, ToplevelFaults, Validation.DocumentFaults, Resolution.Resolve, Resolution.Resolvable, RootOf;
    CleanDocument(doc);
  }

  lemma RegroupedConfig(cfg: Config, g: Group)
    requires Groups(cfg, g)
    ensures ConfigOk(Regrouped(cfg, g)) && WarmupOf(Regrouped(cfg, g)) == WarmupOf(cfg)
    ensures EntryCheck(Regrouped(cfg, g)) == EntryCheck(cfg)
  {
    hide PreflightOf, KeyedByIdentity, After, StoreAfter, CanGroup, RootInstance, Resolution.Resolve, Resolution.Resolvable, PlaceBlind, WarmupTotal, Grouped, RootOf;
    var cat, doc, store, cfg' := cfg.catalog, cfg.document, cfg.components, Regrouped(cfg, g);
    GroupingIsAccepted(cat, doc, store, g);
    CleanResolves(cat, doc, store);
    CleanResolves(cat, cfg'.document, cfg'.components);
    assert Cuttable(RootInstance(cat, doc, store), g) by {
      RootIsRunnable(cat, doc, store);
      CuttableFrom(cat, RootInstance(cat, doc, store), g);
    }
    GroupingKeepsWarmup(cat, RootInstance(cat, doc, store), g);
    SameBps(cfg, g);
  }

  lemma SameBps(cfg: Config, g: Group)
    requires ConfigOk(cfg)
    ensures Regrouped(cfg, g).Bps() == cfg.Bps()
  {
    hide PreflightOf, Grouped, RootInstance, ConfigOk;
  }

  /* ---- one session, without memo and trace ---- */

  ghost predicate Bare(cfg: Config, e: EngineState) {
    !cfg.collectTrace && e.memo.None?
  }

  /** The runs differ at most in what a failure reports. */
  ghost predicate SameButReport(a: StepResult, b: StepResult) {
    a.engine == b.engine && (a.failure.Some? <==> b.failure.Some?)
  }

  lemma OpenGrouped(cfg: Config, g: Group, e: EngineState, s: MarketSession)
    requires ConfigOk(cfg)
    ensures AtOpen(Regrouped(cfg, g), e, s) == AtOpen(cfg, e, s)
    ensures AtOpen(cfg, e, s).engine.memo == e.memo
  {
    hide AsOf, ApplyOrders, PositiveOpens, ConfigOk, After, StoreAfter;
    SameBps(cfg, g);
  }

  lemma MarkGrouped(cfg: Config, g: Group, e: EngineState, s: MarketSession)
    requires ConfigOk(cfg)
    ensures AtMark(Regrouped(cfg, g), e, s) == AtMark(cfg, e, s)
    ensures AtMark(cfg, e, s).engine.memo == e.memo
  {
    hide AsOf, MarkToMarket, ConfigOk, After, StoreAfter;
  }

  lemma TargetsGrouped(cfg: Config, g: Group, e: EngineState, s: MarketSession, next: MarketSession, targets: Weights)
    requires ConfigOk(cfg)
    ensures AfterTargets(Regrouped(cfg, g), e, s, next, targets) == AfterTargets(cfg, e, s, next, targets)
    ensures AfterTargets(cfg, e, s, next, targets).engine.memo == e.memo
  {
    hide AsOf, Reconciliation.Reconcile, ClosesAt, Omitted, Reconciliation.PlanningSet, ConfigOk, After, StoreAfter;
  }

  lemma CloseGrouped(cfg: Config, g: Group, warmup: int, e: EngineState, s: MarketSession)
    requires Groups(cfg, g) && ConfigOk(Regrouped(cfg, g)) && Bare(cfg, e)
    ensures SameButReport(AtClose(Regrouped(cfg, g), warmup, e, s), AtClose(cfg, warmup, e, s))
    ensures AtClose(cfg, warmup, e, s).engine.memo.None?
  {
    hide AsOf, Evaluation, AfterTargets, VisibleSessions, Firing, KeyedByIdentity, Resolution.Resolvable, After, StoreAfter, PreflightOf, CanGroup, PlaceBlind, RootInstance;
    var gate, cfg' := GateAt(cfg, warmup, s), Regrouped(cfg, g);
    assert GateAt(cfg', warmup, s) == gate;
    if gate.Open? {
      var context := Context(AsOf(cfg.data, s.closeAt), e.memo);
      SameWithoutMemo(cfg, g, context);
      GroupingKeepsTargets(cfg.catalog, context, context, cfg.document, cfg.components, g);
      var outcome := Evaluation(cfg.catalog, cfg.document, cfg.components, context);
      if outcome.Ok() {
        TargetsGrouped(cfg, g, e, s, gate.next, outcome.targets.value);
      }
    }
  }

  lemma SameWithoutMemo(cfg: Config, g: Group, context: Context)
    requires ConfigOk(cfg) && context.memo.None?
    ensures SameContext(cfg.catalog, RootInstance(cfg.catalog, cfg.document, cfg.components), g, context, context)
  {
    hide LeafAt, RootInstance, ConfigOk;
  }

  lemma StepGrouped(cfg: Config, g: Group, warmup: int, e: EngineState, s: MarketSession)
    requires Groups(cfg, g) && ConfigOk(Regrouped(cfg, g)) && Bare(cfg, e)
    ensures SameButReport(Step(Regrouped(cfg, g), warmup, e, s), Step(cfg, warmup, e, s))
    ensures Step(cfg, warmup, e, s).engine.memo.None?
  {
    hide AtOpen, AtMark, AtClose, Groups, ConfigOk, Regrouped;
    assert ConfigOk(cfg) by { GroupsOk(cfg, g); }
    OpenGrouped(cfg, g, e, s);
    var filled := AtOpen(cfg, e, s);
    if filled.failure.None? {
      MarkGrouped(cfg, g, filled.engine, s);
      var marked := AtMark(cfg, filled.engine, s);
      if marked.failure.None? {
        CloseGrouped(cfg, g, warmup, marked.engine, s);
      }
    }
  }

  lemma GroupsOk(cfg: Config, g: Group)
    requires Groups(cfg, g)
    ensures ConfigOk(cfg)
  {
    hide PreflightOf, CanGroup, PlaceBlind, ConfigOk;
  }

  lemma {:induction false} StepsGrouped(cfg: Config, g: Group, warmup: int, e: EngineState, sessions: seq<MarketSession>)
    requires Groups(cfg, g) && ConfigOk(cfg) && ConfigOk(Regrouped(cfg, g)) && Bare(cfg, e)
    ensures SameButReport(Steps(Regrouped(cfg, g), warmup, e, sessions), Steps(cfg, warmup, e, sessions))
    ensures Steps(cfg, warmup, e, sessions).engine.memo.None?
  {
    hide Engine.Step, Groups, ConfigOk, Regrouped;
    if sessions != [] {
      var n := |sessions| - 1;
      StepsGrouped(cfg, g, warmup, e, sessions[..n]);
      var before := Steps(cfg, warmup, e, sessions[..n]);
      if before.failure.None? {
        StepGrouped(cfg, g, warmup, before.engine, sessions[n]);
      }
    }
  }

  /* ---- whole runs ---- */

  /** What a run records, apart from its trace and from what its diagnostics say. */
  function Outline(r: BacktestResult): BacktestResult {
    r.(trace := [], diagnostics := multiset{})
  }

  lemma UntracedGroups(cfg: Config, g: Group)
    requires Groups(cfg, g)
    ensures Groups(Untraced(cfg), g) && Regrouped(Untraced(cfg), g) == Untraced(Regrouped(cfg, g))
  {
    hide PreflightOf, CanGroup, PlaceBlind, KeyedByIdentity, Resolution.Resolvable, After, StoreAfter;
  }

  lemma PlainGrouped(cfg: Config, g: Group, initial: PortfolioState)
    requires Groups(cfg, g) && ConfigOk(cfg) && ConfigOk(Regrouped(cfg, g))
    ensures Outline(PlainBacktest(Regrouped(cfg, g), initial)) == Outline(PlainBacktest(cfg, initial))
  {
    hide Groups, ConfigOk, Steps, EntryCheck, WarmupOf, RunWindow;
    var cfg', e := Regrouped(cfg, g), Initial(initial).Plain();
    RegroupedConfig(cfg, g);
    UntracedGroups(cfg, g);
    var w, warmup := Window(cfg), WarmupOf(cfg);
    assert Window(cfg') == w;
    assert w[..|w|] == w;
    assert ConfigOk(Untraced(cfg)) by { GroupsOk(Untraced(cfg), g); }
    UntracedOk(cfg');
    TracingIsPassive(cfg, warmup, e, w);
    TracingIsPassive(cfg', warmup, e, w);
    StepsGrouped(Untraced(cfg), g, warmup, e, w);
  }

  lemma UntracedOk(cfg: Config)
    requires ConfigOk(cfg)
    ensures ConfigOk(Untraced(cfg))
  {
    hide KeyedByIdentity, Resolution.Resolvable;
  }

  /** The backtest of a grouped document makes the same valuations, evaluations, plans, fills and notes, ends in the same
      state, and succeeds when the original one does, provided the memo is safe on both sides. */
  lemma GroupingKeepsBacktest(cfg: Config, g: Group, initial: PortfolioState)
    requires Groups(cfg, g) && ConfigOk(Regrouped(cfg, g)) && MemoSafe(cfg) && MemoSafe(Regrouped(cfg, g))
    ensures Outline(Backtest(Regrouped(cfg, g), initial)) == Outline(Backtest(cfg, initial))
  {
    hide Groups, ConfigOk, MemoSafe, Regrouped, Backtest, PlainBacktest;
    assert ConfigOk(cfg) by { GroupsOk(cfg, g); }
    MemoIsInvisible(cfg, initial);
    MemoIsInvisible(Regrouped(cfg, g), initial);
    PlainGrouped(cfg, g, initial);
  }

  /** The nodes that produce series, the memo-using average among them, do not look at their place. */
  lemma SeriesNodesIgnorePlace(i: Implementation)
    requires IsPrice(i) || IsAverage(i)
    ensures IgnoresPlace(i)
  {
    forall inv: NodeInvocation, path: Path ensures i.evaluate(inv.(path := path)).outcome == i.evaluate(inv).outcome {
      if IsPrice(i) {
        assert PriceNode(inv.(path := path)).outcome == PriceNode(inv).outcome;
      } else {
        assert AverageNode(inv.(path := path)).outcome == AverageNode(inv).outcome;
      }
    }
  }

  /** So it is over every catalog like the program's own. */
  lemma StandardGroupingKeepsBacktest(cfg: Config, g: Group, initial: PortfolioState)
    requires Groups(cfg, g) && StandardCatalog(cfg.catalog)
    ensures ConfigOk(cfg) && ConfigOk(Regrouped(cfg, g))
    ensures Outline(Backtest(Regrouped(cfg, g), initial)) == Outline(Backtest(cfg, initial))
  {
    hide Groups, ConfigOk, MemoSafe, Backtest, StandardCatalog, After, StoreAfter;
    RegroupedConfig(cfg, g);
    GroupsOk(cfg, g);
    StandardCatalogIsSafe(cfg);
    StandardCatalogIsSafe(Regrouped(cfg, g));
    GroupingKeepsBacktest(cfg, g, initial);
  }
}
