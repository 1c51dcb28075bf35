/** Theorems about every run of the session engine. */
module RunTheorems {
  import opened Closure
  import opened Collections
  import opened Diagnostics
  import opened Documents
  import opened Engine
  import opened Fills
  import opened FillLoops
  import opened Market
  import opened PlanProperties
  import opened Portfolio
  import opened Preflight
  import opened Evaluator
  import Reconciliation
  import Resolution
  import Schedule
  import opened RunInvariants
  import opened Sessions
  import opened StrategyEvaluation

  /* ---- the mark ---- */

  lemma {:induction false} MarkUpToIff(state: PortfolioState, view: DataView, date: Date, assets: seq<Asset>)
    requires forall a :: a in assets ==> a in state.positions
    ensures MarkUpTo(state, view, date, assets).Marked? <==> forall a :: a in assets ==> view.LatestClose(a).Some?
  {
    hide DataView.LatestClose, Times;
    if assets != [] {
      var n := |assets| - 1;
      var last := assets[n];
      assert last in assets;
      MarkUpToIff(state, view, date, assets[..n]);
      assert forall a :: a in assets <==> a in assets[..n] || a == last;
    }
  }

  /** Marking fails exactly when some held asset has no visible close. */
  lemma MarkIff(state: PortfolioState, view: DataView, date: Date)
    ensures MarkToMarket(state, view, date).Marked? <==> AllMarkable(state, view)
  {
    hide MarkUpTo;
    MarkUpToIff(state, view, date, Sorted(state.positions.Keys));
    assert forall a :: a in Sorted(state.positions.Keys) <==> a in state.positions;
  }

  /* ---- one session in a reachable state ---- */

  /** The queue of a reachable state holds a sound plan of the current portfolio. */
  lemma QueueIsSound(cfg: Config, k: nat, e: EngineState)
    requires k < |Window(cfg)| && RunInvariants.Settled(cfg, k, e) && e.pending.Some?
    ensures OneOrderPerAsset(e.pending.value.orders) && NoOversell(e.state.positions, e.pending.value.orders)
    ensures forall a :: a in SideMap(e.pending.value.orders, Buy) ==> k > 0 && AsOf(cfg.data, Window(cfg)[k - 1].closeAt).LatestClose(a).Some?
  {
    hide Window, AllMarkable, Reconciliation.Reconcile, AsOf, OneOrderPerAsset, NoOversell, SideMap, ClosesAt, Reconciliation.PlanningSet;
    var s := Window(cfg)[k - 1];
    assert QueuedAt(cfg, e, s);
    var record := e.evaluations[|e.evaluations| - 1];
    var prices := ClosesAt(AsOf(cfg.data, s.closeAt), s.date, Reconciliation.PlanningSet(e.state, record.weights));
    PlanOrdersSound(e.state, record.weights, prices);
    forall a | a in SideMap(e.pending.value.orders, Buy) ensures AsOf(cfg.data, s.closeAt).LatestClose(a).Some? {
      BoughtWerePriced(cfg, e.state, s, record.weights, a);
    }
  }

  /** The fill event of this session and the orders it answers. */
  ghost predicate FilledAsQueued(before: EngineState, after: EngineState, s: MarketSession) {
    before.pending.Some? && exists fills ::
      after.fills == before.fills + FillEvents(s, fills) && FillsAnswer(fills, before.pending.value.orders)
  }

  /** At the open of a reachable state: the queue empties, every fill answers one order of the previous session's
      evaluation, and only a missing open price can end the run. */
  lemma OpenInReachable(cfg: Config, k: nat, e: EngineState)
    requires CostsSupported(cfg.Bps()) && k < |Window(cfg)| && RunInvariants.Settled(cfg, k, e)
    ensures var r := AtOpen(cfg, e, Window(cfg)[k]);
      if r.failure.Some? then OnlyMissingOpens(r.failure.value) && r.failure.value != multiset{}
      else r.engine.pending.None?
           && (if e.pending.Some? then FilledAsQueued(e, r.engine, Window(cfg)[k]) else r.engine == e)
           && (k > 0 ==> AllMarkable(r.engine.state, AsOf(cfg.data, Window(cfg)[k - 1].closeAt)))
  {
    hide Window, AllMarkable, ApplyOrders, AsOf, SideMap, OneOrderPerAsset, NoOversell, FillsAnswer, OnlyMissingOpens, PositiveOpens;
    var s := Window(cfg)[k];
    if e.pending.Some? {
      QueueIsSound(cfg, k, e);
      var orders, view := e.pending.value.orders, AsOf(cfg.data, s.openAt);
      AsOfOpensPositive(cfg.data, s.openAt);
      RefusedOnlyForOpens(e.state, orders, view, s.date, cfg.Bps());
      var result := ApplyOrders(e.state, orders, view, s.date, cfg.Bps());
      if result.Applied? {
        FillsAnswerOrders(e.state, orders, view, s.date, cfg.Bps());
        FilledAssets(e.state, orders, view, s.date, cfg.Bps());
        assert AtOpen(cfg, e, s).engine.fills == e.fills + FillEvents(s, result.fills);
        StillMarkable(e.state, result.state, AsOf(cfg.data, Window(cfg)[k - 1].closeAt), orders);
      }
    }
  }

  lemma StillMarkable(before: PortfolioState, after: PortfolioState, view: DataView, orders: seq<Order>)
    requires AllMarkable(before, view)
    requires forall a :: a in after.positions ==> a in before.positions || a in SideMap(orders, Buy)
    requires forall a :: a in SideMap(orders, Buy) ==> view.LatestClose(a).Some?
    ensures AllMarkable(after, view)
  {
    hide SideMap, DataView.LatestClose;
  }

  lemma RefusedOnlyForOpens(state: PortfolioState, orders: seq<Order>, view: DataView, date: Date, bps: real)
    requires PositiveOpens(view) && CostsSupported(bps) && OneOrderPerAsset(orders) && NoOversell(state.positions, orders)
    ensures var r := ApplyOrders(state, orders, view, date, bps);
      r.Rejected? ==> OnlyMissingOpens(r.diagnostics) && r.diagnostics != multiset{}
  {
    hide OrderFaults, OnlyMissingOpens, OneOrderPerAsset, NoOversell, PositiveOpens, OpensFor;
    OnlyOpensMissing(state, orders, view, date, orders);
  }

  /** After the first session marking cannot fail: what is held was markable at the previous close, and visibility is monotone. */
  lemma MarkInReachable(cfg: Config, k: nat, e: EngineState)
    requires k < |Window(cfg)|
    requires k > 0 ==> AllMarkable(e.state, AsOf(cfg.data, Window(cfg)[k - 1].closeAt))
    ensures var r := AtMark(cfg, e, Window(cfg)[k]);
      && (r.failure.None? <==> AllMarkable(e.state, AsOf(cfg.data, Window(cfg)[k].closeAt)))
      && (k > 0 ==> r.failure.None?)
      && r.engine.state == e.state && r.engine.pending == e.pending && r.engine.evaluations == e.evaluations
      && (r.failure.Some? ==> exists a :: a in e.state.positions && r.failure.value == multiset{Fault(MissingValuationPrice, a)})
  {
    hide Window, AsOf, MarkUpTo, DataView.LatestClose;
    var s := Window(cfg)[k];
    MarkIff(e.state, AsOf(cfg.data, s.closeAt), s.date);
    UnpricedIsHeld(e.state, AsOf(cfg.data, s.closeAt), s.date, Sorted(e.state.positions.Keys));
    if k > 0 {
      WindowIs(cfg);
      forall a | a in e.state.positions ensures AsOf(cfg.data, s.closeAt).LatestClose(a).Some? {
        MarkableLater(cfg, Window(cfg)[k - 1].closeAt, s.closeAt, a);
      }
    }
  }

  lemma {:induction false} UnpricedIsHeld(state: PortfolioState, view: DataView, date: Date, assets: seq<Asset>)
    requires forall a :: a in assets ==> a in state.positions
    ensures MarkUpTo(state, view, date, assets).Unpriced? ==> MarkUpTo(state, view, date, assets).asset in state.positions
  {
    hide DataView.LatestClose, Times;
    if assets != [] {
      var last := assets[|assets| - 1];
      assert last in assets;
      UnpricedIsHeld(state, view, date, assets[..|assets| - 1]);
    }
  }

  predicate EvaluationOrPlanning(r: Report, date: Date) {
    Fault(EvaluationFailed, date) in r || Fault(ReconciliationFailed, date) in r
  }

  lemma PlanQueued(cfg: Config, e: EngineState, s: MarketSession, next: MarketSession, targets: Weights)
    requires e.pending.None?
    ensures var r := AfterTargets(cfg, e, s, next, targets);
      if r.failure.Some? then Fault(ReconciliationFailed, s.date) in r.failure.value
      else r.engine.state == e.state && (r.engine.pending.Some? ==> r.engine.pending.value.session == next.date && QueuedAt(cfg, r.engine, s))
  {
    hide AsOf, Reconciliation.Reconcile, ClosesAt, Reconciliation.PlanningSet, Omitted;
  }

  /** At the close: orders are queued for exactly the next session of the window, or not at all. */
  lemma CloseInReachable(cfg: Config, k: nat, e: EngineState)
    requires ConfigOk(cfg) && k < |Window(cfg)| && e.pending.None? && AllMarkable(e.state, AsOf(cfg.data, Window(cfg)[k].closeAt))
    ensures var r := AtClose(cfg, WarmupOf(cfg), e, Window(cfg)[k]);
      if r.failure.Some? then EvaluationOrPlanning(r.failure.value, Window(cfg)[k].date)
      else RunInvariants.Settled(cfg, k + 1, r.engine)
  {
    hide Window, AsOf, AllMarkable, AfterTargets, Evaluation, WarmupOf, Resolution.Resolvable, KeyedByIdentity, VisibleSessions, Schedule.Firing, NodeTrace, QueuedAt;
    var s := Window(cfg)[k];
    var gate := GateAt(cfg, WarmupOf(cfg), s);
    if gate.Open? {
      NextIsInWindow(cfg, k, gate.next);
      var outcome := Evaluation(cfg.catalog, cfg.document, cfg.components, Context(AsOf(cfg.data, s.closeAt), e.memo));
      if outcome.Ok() {
        var left := e.(memo := if e.memo.Some? then Some(outcome.memo) else None);
        var traced := if cfg.collectTrace then left.(trace := e.trace + NodeTrace(s.closeAt, outcome.trace)) else left;
        PlanQueued(cfg, traced, s, gate.next, outcome.targets.value);
      }
    }
  }

  /** The failures a session can end with in a reachable state, and when. */
  ghost predicate ExpectedFailure(cfg: Config, k: nat, e: EngineState, r: Report)
    requires k < |Window(cfg)|
  {
    || (e.pending.Some? && OnlyMissingOpens(r) && r != multiset{})
    || (k == 0 && exists a :: a in e.state.positions && r == multiset{Fault(MissingValuationPrice, a)})
    || EvaluationOrPlanning(r, Window(cfg)[k].date)
  }

  lemma StepInReachable(cfg: Config, k: nat, e: EngineState)
    requires ConfigOk(cfg) && CostsSupported(cfg.Bps()) && k < |Window(cfg)| && RunInvariants.Settled(cfg, k, e)
    ensures var r := Step(cfg, WarmupOf(cfg), e, Window(cfg)[k]);
      if r.failure.Some? then ExpectedFailure(cfg, k, e, r.failure.value) else RunInvariants.Settled(cfg, k + 1, r.engine)
  {
    hide Window, AsOf, AllMarkable, AtOpen, AtMark, AtClose, WarmupOf, ConfigOk, OnlyMissingOpens, EvaluationOrPlanning, FilledAsQueued, QueuedAt;
    OpenInReachable(cfg, k, e);
    var filled := AtOpen(cfg, e, Window(cfg)[k]);
    if filled.failure.None? {
      MarkInReachable(cfg, k, filled.engine);
      var marked := AtMark(cfg, filled.engine, Window(cfg)[k]);
      if marked.failure.None? {
        CloseInReachable(cfg, k, marked.engine);
      }
    } else {
      NoQueueNoFailure(cfg, e, Window(cfg)[k]);
    }
    if k == 0 && e.pending.None? && filled.failure.None? {
      assert filled.engine == e;
    }
    if k == 0 { assert e.pending.None?; }
  }

  lemma NoQueueNoFailure(cfg: Config, e: EngineState, s: MarketSession)
    requires AtOpen(cfg, e, s).failure.Some?
    ensures e.pending.Some?
  {
  }

  /** Every reachable state: pending orders are absent, or they are the plan of the session just closed and dated to exactly
      the next session of the window. */
  lemma {:induction false} RunSettles(cfg: Config, initial: PortfolioState, k: nat)
    requires ConfigOk(cfg) && CostsSupported(cfg.Bps()) && k <= |Window(cfg)|
    requires Steps(cfg, WarmupOf(cfg), Initial(initial), Window(cfg)[..k]).failure.None?
    ensures RunInvariants.Settled(cfg, k, Steps(cfg, WarmupOf(cfg), Initial(initial), Window(cfg)[..k]).engine)
  {
    hide Window, AllMarkable, QueuedAt, AsOf, Engine.Step, WarmupOf, ConfigOk;
    if k > 0 {
      StepsSnoc(cfg, WarmupOf(cfg), Initial(initial), Window(cfg), k - 1);
      RunSettles(cfg, initial, k - 1);
      StepInReachable(cfg, k - 1, Steps(cfg, WarmupOf(cfg), Initial(initial), Window(cfg)[..k - 1]).engine);
    }
  }

  lemma EntryChecksCosts(cfg: Config)
    requires ConfigOk(cfg) && EntryCheck(cfg).None?
    ensures CostsSupported(cfg.Bps())
  {
    hide Resolution.Resolve, ConfigOk;
  }

  /** An ok run ends with an empty queue. */
  lemma OkRunEndsUnqueued(cfg: Config, initial: PortfolioState)
    requires ConfigOk(cfg) && EntryCheck(cfg).None?
    requires Steps(cfg, WarmupOf(cfg), Initial(initial), Window(cfg)).failure.None?
    ensures Steps(cfg, WarmupOf(cfg), Initial(initial), Window(cfg)).engine.pending.None?
  {
    hide Window, AllMarkable, QueuedAt, AsOf, Steps, WarmupOf, ConfigOk, EntryCheck;
    var w := Window(cfg);
    assert w[..|w|] == w;
    EntryChecksCosts(cfg);
    RunSettles(cfg, initial, |w|);
  }

  /** How a run can end: a missing open price for queued orders, a missing valuation price at the first session of the window
      only, a failed evaluation, or a failed reconciliation. Fills never fail on an invalid order or on costs. */
  lemma RunFailsAsExpected(cfg: Config, initial: PortfolioState, k: nat)
    requires ConfigOk(cfg) && EntryCheck(cfg).None? && k < |Window(cfg)|
    requires Steps(cfg, WarmupOf(cfg), Initial(initial), Window(cfg)[..k]).failure.None?
    requires Steps(cfg, WarmupOf(cfg), Initial(initial), Window(cfg)[..k + 1]).failure.Some?
    ensures ExpectedFailure(cfg, k, Steps(cfg, WarmupOf(cfg), Initial(initial), Window(cfg)[..k]).engine,
                            Steps(cfg, WarmupOf(cfg), Initial(initial), Window(cfg)[..k + 1]).failure.value)
  {
    hide Window, RunInvariants.Settled, ExpectedFailure, AsOf, Engine.Step, WarmupOf, ConfigOk, EntryCheck, Steps;
    EntryChecksCosts(cfg);
    RunSettles(cfg, initial, k);
    StepsSnoc(cfg, WarmupOf(cfg), Initial(initial), Window(cfg), k);
    StepInReachable(cfg, k, Steps(cfg, WarmupOf(cfg), Initial(initial), Window(cfg)[..k]).engine);
  }

  /** Marking and closing a session touch no fills. */
  lemma FillsOnlyAtOpen(cfg: Config, warmup: int, e: EngineState, s: MarketSession)
    requires ConfigOk(cfg) && Step(cfg, warmup, e, s).failure.None?
    ensures AtOpen(cfg, e, s).failure.None? && Step(cfg, warmup, e, s).engine.fills == AtOpen(cfg, e, s).engine.fills
  {
    hide AtOpen, MarkToMarket, GateAt, Evaluation, AsOf, Reconciliation.Reconcile, ClosesAt, Omitted, NodeTrace;
  }

  /** The fills of every session answer, one for one, the orders of the immediately preceding session's evaluation; a session
      without queued orders fills nothing. */
  lemma FillsAnswerPreviousEvaluation(cfg: Config, initial: PortfolioState, k: nat)
    requires ConfigOk(cfg) && EntryCheck(cfg).None? && k < |Window(cfg)|
    requires Steps(cfg, WarmupOf(cfg), Initial(initial), Window(cfg)[..k + 1]).failure.None?
    ensures var before := Steps(cfg, WarmupOf(cfg), Initial(initial), Window(cfg)[..k]).engine;
      var after := Steps(cfg, WarmupOf(cfg), Initial(initial), Window(cfg)[..k + 1]).engine;
      if before.pending.Some?
      then k > 0 && QueuedAt(cfg, before, Window(cfg)[k - 1]) && FilledAsQueued(before, after, Window(cfg)[k])
      else after.fills == before.fills
  {
    hide Window, AllMarkable, QueuedAt, FillsAnswer, AsOf, Engine.Step, AtOpen, WarmupOf, ConfigOk, EntryCheck, Steps;
    EntryChecksCosts(cfg);
    StepsSnoc(cfg, WarmupOf(cfg), Initial(initial), Window(cfg), k);
    RunSettles(cfg, initial, k);
    var before := Steps(cfg, WarmupOf(cfg), Initial(initial), Window(cfg)[..k]).engine;
    OpenInReachable(cfg, k, before);
    FillsOnlyAtOpen(cfg, WarmupOf(cfg), before, Window(cfg)[k]);
  }

  /* ---- runs of documents that pass pre-flight ---- */

  /** The failed evaluation at a close: a node failed, or the terminal cannot receive targets. */
  ghost predicate EvaluationEnded(cfg: Config, k: nat, memo: Option<Memo>, r: Report)
    requires ConfigOk(cfg) && k < |Window(cfg)|
  {
    var outcome := Evaluation(cfg.catalog, cfg.document, cfg.components, Context(AsOf(cfg.data, Window(cfg)[k].closeAt), memo));
    && r == multiset{Fault(EvaluationFailed, Window(cfg)[k].date)} + multiset(outcome.diagnostics)
    && |TerminalNodes(cfg.document.graph.nodes)| == 1
    && (if TerminalAccepts(cfg.catalog, cfg.document) then FailedInNode(outcome) else FailedInNode(outcome) || TerminalInvalid(outcome))
  }

  /** The refused plan at a close. */
  ghost predicate PlanningEnded(cfg: Config, k: nat, r: Report)
    requires k < |Window(cfg)|
  {
    exists faults :: r == multiset{Fault(ReconciliationFailed, Window(cfg)[k].date)} + faults
  }

  lemma PlanRefused(cfg: Config, e: EngineState, s: MarketSession, next: MarketSession, outcome: Outcome)
    requires AfterOutcome(cfg, e, s, next, outcome).failure.Some?
    ensures var r := AfterOutcome(cfg, e, s, next, outcome).failure.value;
      if outcome.Ok() then exists faults :: r == multiset{Fault(ReconciliationFailed, s.date)} + faults
      else r == multiset{Fault(EvaluationFailed, s.date)} + multiset(outcome.diagnostics)
  {
    hide AsOf, Reconciliation.Reconcile, ClosesAt, Reconciliation.PlanningSet, Omitted, NodeTrace;
    if outcome.Ok() {
      var targets := outcome.targets.value;
      var plan := Reconciliation.Reconcile(e.state, targets, ClosesAt(AsOf(cfg.data, s.closeAt), s.date, Reconciliation.PlanningSet(e.state, targets)));
      assert AfterOutcome(cfg, e, s, next, outcome).failure.value == multiset{Fault(ReconciliationFailed, s.date)} + plan.diagnostics;
    }
  }

  lemma SomethingClosed(cfg: Config, k: nat)
    requires k < |Window(cfg)|
    ensures AsOf(cfg.data, Window(cfg)[k].closeAt).sessions != []
  {
    var s := Window(cfg)[k];
    assert s in Window(cfg);
    var i :| 0 <= i < |cfg.data.calendar| && cfg.data.calendar[i] == s;
    SessionsAt(cfg.data, i);
  }

  lemma CloseEnds(cfg: Config, k: nat, e: EngineState)
    requires ConfigOk(cfg) && PreflightOf(cfg.catalog, cfg.document, cfg.components).Ok() && k < |Window(cfg)|
    requires AtClose(cfg, WarmupOf(cfg), e, Window(cfg)[k]).failure.Some?
    ensures var r := AtClose(cfg, WarmupOf(cfg), e, Window(cfg)[k]).failure.value;
      EvaluationEnded(cfg, k, e.memo, r) || PlanningEnded(cfg, k, r)
  {
    hide Window, AsOf, AfterOutcome, Evaluation, WarmupOf, Resolution.Resolvable, KeyedByIdentity, GateAt, PreflightOf, FailedInNode, TerminalInvalid,
      TerminalAccepts, TerminalNodes;
    var s := Window(cfg)[k];
    var gate := GateAt(cfg, WarmupOf(cfg), s);
    var context := Context(AsOf(cfg.data, s.closeAt), e.memo);
    var outcome := Evaluation(cfg.catalog, cfg.document, cfg.components, context);
    PlanRefused(cfg, e, s, gate.next, outcome);
    SomethingClosed(cfg, k);
    EvaluationProgress(cfg.catalog, cfg.document, cfg.components, context);
  }

  lemma StepEnds(cfg: Config, k: nat, e: EngineState)
    requires ConfigOk(cfg) && CostsSupported(cfg.Bps()) && k < |Window(cfg)| && RunInvariants.Settled(cfg, k, e)
    requires PreflightOf(cfg.catalog, cfg.document, cfg.components).Ok() && Step(cfg, WarmupOf(cfg), e, Window(cfg)[k]).failure.Some?
    ensures var r := Step(cfg, WarmupOf(cfg), e, Window(cfg)[k]).failure.value;
      || (e.pending.Some? && OnlyMissingOpens(r) && r != multiset{})
      || (k == 0 && exists a :: a in e.state.positions && r == multiset{Fault(MissingValuationPrice, a)})
      || EvaluationEnded(cfg, k, e.memo, r) || PlanningEnded(cfg, k, r)
  {
    hide Window, AsOf, AllMarkable, AtOpen, AtMark, AtClose, WarmupOf, ConfigOk, OnlyMissingOpens, FilledAsQueued, QueuedAt, PreflightOf,
      EvaluationEnded, PlanningEnded;
    OpenInReachable(cfg, k, e);
    OpenKeeps(cfg, e, Window(cfg)[k]);
    var filled := AtOpen(cfg, e, Window(cfg)[k]);
    if filled.failure.None? {
      MarkInReachable(cfg, k, filled.engine);
      MarkKeeps(cfg, filled.engine, Window(cfg)[k]);
      var marked := AtMark(cfg, filled.engine, Window(cfg)[k]);
      if marked.failure.None? {
        CloseEnds(cfg, k, marked.engine);
      } else {
        assert k == 0 && e.pending.None? && filled.engine == e;
      }
    } else {
      NoQueueNoFailure(cfg, e, Window(cfg)[k]);
    }
  }

  /** How a run of a document that passes pre-flight can end: on a missing open price for queued orders, on a missing valuation
      price at the first session, on a node that failed, on a terminal that cannot receive targets, which the document and the
      catalog alone decide, or on a refused plan. */
  lemma CleanRunEnds(cfg: Config, initial: PortfolioState, k: nat)
    requires ConfigOk(cfg) && EntryCheck(cfg).None? && PreflightOf(cfg.catalog, cfg.document, cfg.components).Ok() && k < |Window(cfg)|
    requires Steps(cfg, WarmupOf(cfg), Initial(initial), Window(cfg)[..k]).failure.None?
    requires Steps(cfg, WarmupOf(cfg), Initial(initial), Window(cfg)[..k + 1]).failure.Some?
    ensures var e := Steps(cfg, WarmupOf(cfg), Initial(initial), Window(cfg)[..k]).engine;
      var r := Steps(cfg, WarmupOf(cfg), Initial(initial), Window(cfg)[..k + 1]).failure.value;
      || (e.pending.Some? && OnlyMissingOpens(r) && r != multiset{})
      || (k == 0 && exists a :: a in e.state.positions && r == multiset{Fault(MissingValuationPrice, a)})
      || EvaluationEnded(cfg, k, e.memo, r) || PlanningEnded(cfg, k, r)
  {
    hide Window, RunInvariants.Settled, AsOf, Engine.Step, WarmupOf, ConfigOk, EntryCheck, Steps, OnlyMissingOpens, EvaluationEnded, PlanningEnded, PreflightOf;
    EntryChecksCosts(cfg);
    RunSettles(cfg, initial, k);
    StepsSnoc(cfg, WarmupOf(cfg), Initial(initial), Window(cfg), k);
    StepEnds(cfg, k, Steps(cfg, WarmupOf(cfg), Initial(initial), Window(cfg)[..k]).engine);
  }
}
