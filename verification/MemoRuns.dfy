/** The memo over whole runs: when sharing it between the evaluations of a run cannot show. */
module MemoRuns {
  import opened Closure
  import opened Collections
  import opened Compositionality
  import opened Diagnostics
  import opened Documents
  import opened Engine
  import opened Evaluator
  import opened Execution
  import opened Fills
  import opened FillLoops
  import opened Growth
  import opened Invocations
  import opened Market
  import opened MovingAverage
  import opened Planning
  import opened Portfolio
  import opened Preflight
  import Reconciliation
  import Resolution
  import opened Schedule
  import opened SeriesNodes
  import opened Sessions
  import opened StrategyEvaluation
  import opened Transparency
  import opened Typing

  /* ---- what a run delivers to its averages ---- */

  /** The memo-free evaluation context of an instant. */
  function PlainAt(cfg: Config, t: Instant): Context {
    Context(AsOf(cfg.data, t), None)
  }

  /** The invocations of the memo-free evaluation at an instant; none if pre-flight stops it. */
  ghost function CallsAt(cfg: Config, t: Instant): seq<Invocation>
    requires ConfigOk(cfg)
  {
    if EntryFaults(cfg.catalog, cfg.document, cfg.components, PlainAt(cfg, t)) != {} then []
    else
      NoFaultsMeansClean(cfg.catalog, cfg.document, cfg.components, PlainAt(cfg, t));
      RootIsRunnable(cfg.catalog, cfg.document, cfg.components);
      RunOf(Planned(cfg.catalog, PlainAt(cfg, t)), RootInstance(cfg.catalog, cfg.document, cfg.components)).calls
  }

  /** The run evaluates at this session of its window. */
  ghost predicate EvaluatesAt(cfg: Config, k: nat)
    requires ConfigOk(cfg) && k < |Window(cfg)|
  {
    GateAt(cfg, WarmupOf(cfg), Window(cfg)[k]).Open?
  }

  ghost predicate SucceedsAt(cfg: Config, t: Instant)
    requires ConfigOk(cfg)
  {
    Evaluation(cfg.catalog, cfg.document, cfg.components, PlainAt(cfg, t)).Ok()
  }

  ghost predicate AverageCall(cat: Catalog, c: Invocation) {
    && cat.Resolve(c.typeId, c.version).Resolved? && IsAverage(cat.Resolve(c.typeId, c.version).implementation)
    && WINDOW in c.params && c.params[WINDOW] >= 1 && SERIES in c.inputs && c.inputs[SERIES].TimeSeriesValue?
  }

  /** The series delivered to each moving average at t are extended by those delivered to it at u. */
  ghost predicate DeliveriesGrow(cfg: Config, t: Instant, u: Instant)
    requires ConfigOk(cfg)
  {
    forall c, d :: c in CallsAt(cfg, t) && d in CallsAt(cfg, u) && c.path == d.path && AverageCall(cfg.catalog, c) && AverageCall(cfg.catalog, d)
      ==> SeriesGrow(c.inputs[SERIES].series, d.inputs[SERIES].series)
  }

  /** Along the evaluations of the window, every series delivered to a moving average only grows. */
  ghost predicate SeriesOnlyGrow(cfg: Config)
    requires ConfigOk(cfg)
  {
    forall i, k :: 0 <= i < k < |Window(cfg)| && EvaluatesAt(cfg, i) && EvaluatesAt(cfg, k) && SucceedsAt(cfg, Window(cfg)[i].closeAt)
      ==> DeliveriesGrow(cfg, Window(cfg)[i].closeAt, Window(cfg)[k].closeAt)
  }

  /** Only averages use the memo, and what reaches them only grows. */
  ghost predicate MemoSafe(cfg: Config)
    requires ConfigOk(cfg)
  {
    OnlyAveragesMemoise(cfg.catalog) && SeriesOnlyGrow(cfg)
  }

  /* ---- the invariant of the memo ---- */

  /** The mean a moving average was delivered at session i of the window. */
  ghost predicate MeanOf(cfg: Config, i: nat, c: Invocation, p: Path, asset: Asset, day: Date, v: real)
    requires ConfigOk(cfg) && i < |Window(cfg)|
  {
    && c in CallsAt(cfg, Window(cfg)[i].closeAt) && c.path == p && AverageCall(cfg.catalog, c)
    && HasMean(c.inputs[SERIES].series, AsOf(cfg.data, Window(cfg)[i].closeAt).sessions, c.params[WINDOW], asset, day, v)
  }

  ghost predicate MeanOfSome(cfg: Config, i: nat, p: Path, asset: Asset, day: Date, v: real)
    requires ConfigOk(cfg) && i < |Window(cfg)|
  {
    EvaluatesAt(cfg, i) && SucceedsAt(cfg, Window(cfg)[i].closeAt) && exists c :: MeanOf(cfg, i, c, p, asset, day, v)
  }

  /** Every entry of the memo is a mean that an earlier evaluation of the window computed at that path. */
  ghost predicate Justified(cfg: Config, k: nat, memo: Memo)
    requires ConfigOk(cfg) && k <= |Window(cfg)|
  {
    forall p, asset, day, v :: HasEntry(CacheIn(memo, p), asset, day, v) ==> EntryJustified(cfg, k, p, asset, day, v)
  }

  ghost predicate EntryJustified(cfg: Config, k: nat, p: Path, asset: Asset, day: Date, v: real)
    requires ConfigOk(cfg) && k <= |Window(cfg)|
  {
    exists i :: 0 <= i < k && MeanOfSome(cfg, i, p, asset, day, v)
  }

  lemma EmptyJustified(cfg: Config, k: nat)
    requires ConfigOk(cfg) && k <= |Window(cfg)|
    ensures Justified(cfg, k, map[])
  {
    hide EntryJustified, Window, ConfigOk;
  }

  lemma JustifiedLater(cfg: Config, k: nat, p: Path, asset: Asset, day: Date, v: real)
    requires ConfigOk(cfg) && k < |Window(cfg)| && EntryJustified(cfg, k, p, asset, day, v)
    ensures EntryJustified(cfg, k + 1, p, asset, day, v)
  {
    hide MeanOfSome, Window, ConfigOk;
  }

  /** A mean computed from an earlier, shorter series is the mean of the longer one. */
  lemma MeanPersists(earlier: map<Date, real>, later: map<Date, real>, s: seq<Date>, t: seq<Date>, window: nat, day: Date, v: real, ix: nat)
    requires window >= 1 && Extends(later, earlier) && s <= t && Ascending(t)
    requires ComputedAt(earlier, s, window, |s|, day, v) && window - 1 <= ix < |t| && t[ix] == day
    ensures MeanAt(later, t, window, ix) == Some(v)
  {
    hide MeanAt;
    var j :| window - 1 <= j < |s| && s[j] == day && MeanAt(earlier, s, window, j) == Some(v);
    assert t[j] == s[j];
    assert j == ix;
    MeanAtExtends(earlier, later, s, t, window, j);
  }

  ghost function RootOfRun(cfg: Config): Instance
    requires ConfigOk(cfg)
  {
    RootInstance(cfg.catalog, cfg.document, cfg.components)
  }

  /** Calls at the same path are calls of the same node. */
  lemma SameNode(cfg: Config, t: Instant, u: Instant, c: Invocation, d: Invocation)
    requires ConfigOk(cfg) && c in CallsAt(cfg, t) && d in CallsAt(cfg, u) && c.path == d.path
    ensures c.typeId == d.typeId && c.version == d.version && c.params == d.params
  {
    hide EntryFaults, RunOf, RootInstance, MemoAccounted, KindAt, Resolution.Resolvable, KeyedByIdentity, AsOf, PreflightOf;
    NoFaultsMeansClean(cfg.catalog, cfg.document, cfg.components, PlainAt(cfg, t));
    NoFaultsMeansClean(cfg.catalog, cfg.document, cfg.components, PlainAt(cfg, u));
    RootIsRunnable(cfg.catalog, cfg.document, cfg.components);
    EvaluationAccounted(Planned(cfg.catalog, PlainAt(cfg, t)), RootOfRun(cfg));
    EvaluationAccounted(Planned(cfg.catalog, PlainAt(cfg, u)), RootOfRun(cfg));
  }

  /** One asset of one average: what the memo has for it is exact. */
  lemma SlotExact(cfg: Config, k: nat, memo: Memo, d: Invocation, asset: Asset)
    requires ConfigOk(cfg) && k < |Window(cfg)| && SeriesOnlyGrow(cfg) && Justified(cfg, k, memo) && EvaluatesAt(cfg, k)
    requires d in CallsAt(cfg, Window(cfg)[k].closeAt) && AverageCall(cfg.catalog, d) && asset in d.inputs[SERIES].series
    ensures SlotAgrees(SlotOf(CacheIn(memo, d.path), asset), Dict(d.inputs[SERIES].series[asset]), AsOf(cfg.data, Window(cfg)[k].closeAt).sessions, d.params[WINDOW])
  {
    hide CallsAt, Window, ConfigOk, AsOf, MeanAt, ComputedAt, EvaluatesAt, SucceedsAt, Dict, Extends;
    var t, slot, window := Window(cfg)[k].closeAt, SlotOf(CacheIn(memo, d.path), asset), d.params[WINDOW];
    var sessions, series := AsOf(cfg.data, t).sessions, d.inputs[SERIES].series;
    forall ix | window - 1 <= ix < |sessions| && sessions[ix] in slot
      ensures MeanAt(Dict(series[asset]), sessions, window, ix) == Some(slot[sessions[ix]])
    {
      var day, v := sessions[ix], slot[sessions[ix]];
      assert HasEntry(CacheIn(memo, d.path), asset, day, v);
      assert EntryJustified(cfg, k, d.path, asset, day, v);
      var i :| 0 <= i < k && MeanOfSome(cfg, i, d.path, asset, day, v);
      var c :| MeanOf(cfg, i, c, d.path, asset, day, v);
      EntryExact(cfg, i, k, c, d, asset, day, v, ix);
    }
  }

  lemma EntryExact(cfg: Config, i: nat, k: nat, c: Invocation, d: Invocation, asset: Asset, day: Date, v: real, ix: nat)
    requires ConfigOk(cfg) && i < k < |Window(cfg)| && SeriesOnlyGrow(cfg) && EvaluatesAt(cfg, k)
    requires EvaluatesAt(cfg, i) && SucceedsAt(cfg, Window(cfg)[i].closeAt) && MeanOf(cfg, i, c, d.path, asset, day, v)
    requires d in CallsAt(cfg, Window(cfg)[k].closeAt) && AverageCall(cfg.catalog, d) && asset in d.inputs[SERIES].series
    requires d.params[WINDOW] - 1 <= ix < |AsOf(cfg.data, Window(cfg)[k].closeAt).sessions| && AsOf(cfg.data, Window(cfg)[k].closeAt).sessions[ix] == day
    ensures MeanAt(Dict(d.inputs[SERIES].series[asset]), AsOf(cfg.data, Window(cfg)[k].closeAt).sessions, d.params[WINDOW], ix) == Some(v)
  {
    hide CallsAt, Window, ConfigOk, AsOf, MeanAt, ComputedAt, EvaluatesAt, SucceedsAt, Dict, Extends, AverageCall;
    var t, u := Window(cfg)[i].closeAt, Window(cfg)[k].closeAt;
    WindowIs(cfg);
    SessionsGrow(cfg.data, t, u);
    SameNode(cfg, t, u, c, d);
    assert DeliveriesGrow(cfg, t, u);
    CallReady(cfg.catalog, c);
    CallReady(cfg.catalog, d);
    MeanPersists(Dict(c.inputs[SERIES].series[asset]), Dict(d.inputs[SERIES].series[asset]), AsOf(cfg.data, t).sessions, AsOf(cfg.data, u).sessions,
                 d.params[WINDOW], day, v, ix);
  }

  lemma CallReady(cat: Catalog, c: Invocation)
    requires AverageCall(cat, c)
    ensures WINDOW in c.params && c.params[WINDOW] >= 1 && SERIES in c.inputs && c.inputs[SERIES].TimeSeriesValue?
  {
    hide IsAverage;
  }

  ghost function MemoSetting(cfg: Config, t: Instant, memo: Memo): Setting {
    Planned(cfg.catalog, Context(AsOf(cfg.data, t), Some(memo)))
  }

  /** A justified memo is invisible to every invocation. */
  lemma CallsTransparent(cfg: Config, k: nat, memo: Memo)
    requires ConfigOk(cfg) && k < |Window(cfg)| && MemoSafe(cfg) && Justified(cfg, k, memo) && EvaluatesAt(cfg, k)
    ensures AllTransparent(MemoSetting(cfg, Window(cfg)[k].closeAt, memo), CallsAt(cfg, Window(cfg)[k].closeAt))
  {
    hide CallsAt, Window, ConfigOk, AsOf, SeriesOnlyGrow, EvaluatesAt, IgnoresMemo, SlotAgrees, Justified, AverageNode;
    var t := Window(cfg)[k].closeAt;
    var sc := MemoSetting(cfg, t, memo);
    forall d | d in CallsAt(cfg, t) ensures CallTransparent(sc, d) {
      if sc.catalog.Resolve(d.typeId, d.version).Resolved? {
        var i := sc.catalog.Resolve(d.typeId, d.version).implementation;
        var inv := sc.context.Invoked(d.path, d.params, d.inputs);
        assert sc.context.Plain().Invoked(d.path, d.params, d.inputs) == inv.Plain();
        if IsAverage(i) {
          if AverageReady(inv) {
            assert AverageCall(cfg.catalog, d);
            SessionsGrow(cfg.data, t, t);
            forall a | a in d.inputs[SERIES].series
              ensures SlotAgrees(SlotOf(inv.Cached(), a), Dict(d.inputs[SERIES].series[a]), inv.view.sessions, d.params[WINDOW])
            {
              SlotExact(cfg, k, memo, d, a);
            }
            AverageTransparentIff(inv);
          } else {
            RaisesAlike(inv);
          }
        } else {
          assert IgnoresMemo(i);
          IgnoredIsSame(i, inv);
        }
      }
    }
  }

  lemma RaisesAlike(inv: NodeInvocation)
    requires !AverageReady(inv)
    ensures SameResult(AverageNode(inv), AverageNode(inv.Plain()))
  {
  }

  lemma IgnoredIsSame(i: Implementation, inv: NodeInvocation)
    requires IgnoresMemo(i)
    ensures SameResult(i.evaluate(inv), i.evaluate(inv.Plain())) && i.evaluate(inv).cache == inv.Cached()
  {
  }

  /* ---- one evaluation ---- */

  /** The outcomes differ at most in the memo. */
  ghost predicate SameOutcome(a: Outcome, b: Outcome) {
    a.diagnostics == b.diagnostics && a.targets == b.targets && a.outputs == b.outputs && a.trace == b.trace
  }

  lemma ExtractedAlike(cfg: Config, a: Run, b: Run)
    requires Alike(a, b) && |TerminalNodes(cfg.document.graph.nodes)| == 1
    ensures SameOutcome(Extracted(cfg.catalog, cfg.document, a), Extracted(cfg.catalog, cfg.document, b))
    ensures Extracted(cfg.catalog, cfg.document, a).memo == a.memo
  {
    hide DeliveredTargets, TerminalNodes;
    var terminal := TerminalNodes(cfg.document.graph.nodes)[0];
    assert terminal in TerminalNodes(cfg.document.graph.nodes);
  }

  /** With a justified memo the evaluation has the memo-free outcome. */
  lemma EvaluationSame(cfg: Config, k: nat, memo: Memo)
    requires ConfigOk(cfg) && k < |Window(cfg)| && MemoSafe(cfg) && Justified(cfg, k, memo) && EvaluatesAt(cfg, k)
    ensures var t := Window(cfg)[k].closeAt;
      SameOutcome(Evaluation(cfg.catalog, cfg.document, cfg.components, Context(AsOf(cfg.data, t), Some(memo))),
                  Evaluation(cfg.catalog, cfg.document, cfg.components, PlainAt(cfg, t)))
  {
    hide Window, AsOf, MemoSafe, EvaluatesAt, Justified, PreflightOf, KeyedByIdentity, Resolution.Resolvable, RunOf, RootOf, AllTransparent, Alike,
      TerminalNodes, Extracted, Runnable, WellWired;
    var t := Window(cfg)[k].closeAt;
    var with, without := Context(AsOf(cfg.data, t), Some(memo)), PlainAt(cfg, t);
    assert EntryFaults(cfg.catalog, cfg.document, cfg.components, with) == EntryFaults(cfg.catalog, cfg.document, cfg.components, without);
    NoFaultsMeansClean(cfg.catalog, cfg.document, cfg.components, with);
    if EntryFaults(cfg.catalog, cfg.document, cfg.components, with) == {} {
      RootIsRunnable(cfg.catalog, cfg.document, cfg.components);
      CallsTransparent(cfg, k, memo);
      var sc := MemoSetting(cfg, t, memo);
      assert PlainSetting(sc) == Planned(cfg.catalog, without);
      EvaluationTransparent(sc, RootOfRun(cfg));
      ExtractedAlike(cfg, RunOf(sc, RootOfRun(cfg)), RunOf(Planned(cfg.catalog, without), RootOfRun(cfg)));
    }
  }

  /** What an invocation leaves is justified: it was there before, or the average was just delivered its window. */
  lemma LeftIsJustified(cfg: Config, k: nat, memo: Memo, c: Invocation, asset: Asset, day: Date, v: real)
    requires ConfigOk(cfg) && k < |Window(cfg)| && OnlyAveragesMemoise(cfg.catalog) && Justified(cfg, k, memo)
    requires EvaluatesAt(cfg, k) && SucceedsAt(cfg, Window(cfg)[k].closeAt)
    requires c in CallsAt(cfg, Window(cfg)[k].closeAt)
    requires var left := Leaves(MemoSetting(cfg, Window(cfg)[k].closeAt, memo), c); left.Some? && HasEntry(left.value, asset, day, v)
    ensures EntryJustified(cfg, k + 1, c.path, asset, day, v)
  {
    hide CallsAt, Window, ConfigOk, AsOf, EvaluatesAt, SucceedsAt, IgnoresMemo, AverageNode, HasMean;
    var sc := MemoSetting(cfg, Window(cfg)[k].closeAt, memo);
    var i := sc.catalog.Resolve(c.typeId, c.version).implementation;
    var inv := sc.context.Invoked(c.path, c.params, c.inputs);
    if HasEntry(inv.Cached(), asset, day, v) {
      assert EntryJustified(cfg, k, c.path, asset, day, v);
      JustifiedLater(cfg, k, c.path, asset, day, v);
    } else {
      if IsAverage(i) {
        AverageLeaves(inv, asset, day, v);
        assert MeanOf(cfg, k, c, c.path, asset, day, v);
        assert MeanOfSome(cfg, k, c.path, asset, day, v);
      } else {
        IgnoredIsSame(i, inv);
      }
    }
  }

  /** A successful evaluation leaves a justified memo. */
  lemma EvaluationJustifies(cfg: Config, k: nat, memo: Memo)
    requires ConfigOk(cfg) && k < |Window(cfg)| && MemoSafe(cfg) && Justified(cfg, k, memo) && EvaluatesAt(cfg, k)
    requires SucceedsAt(cfg, Window(cfg)[k].closeAt)
    ensures Justified(cfg, k + 1, Evaluation(cfg.catalog, cfg.document, cfg.components, Context(AsOf(cfg.data, Window(cfg)[k].closeAt), Some(memo))).memo)
  {
    hide Window, AsOf, SeriesOnlyGrow, EvaluatesAt, PreflightOf, KeyedByIdentity, Resolution.Resolvable, RunOf, RootOf, AllTransparent, Leaves,
      TerminalNodes, Extracted, Runnable, WellWired, KindAt, EntryJustified, OnlyAveragesMemoise;
    var t := Window(cfg)[k].closeAt;
    var sc := MemoSetting(cfg, t, memo);
    var plain := PlainSetting(sc);
    NoFaultsMeansClean(cfg.catalog, cfg.document, cfg.components, sc.context);
    NoFaultsMeansClean(cfg.catalog, cfg.document, cfg.components, plain.context);
    RootIsRunnable(cfg.catalog, cfg.document, cfg.components);
    CallsTransparent(cfg, k, memo);
    EvaluationTransparent(sc, RootOfRun(cfg));
    EvaluationAccounted(sc, RootOfRun(cfg));
    var run := RunOf(sc, RootOfRun(cfg));
    ExtractedAlike(cfg, run, RunOf(plain, RootOfRun(cfg)));
    assert run.calls == CallsAt(cfg, t);
    forall p, asset, day, v | HasEntry(CacheIn(run.memo, p), asset, day, v) ensures EntryJustified(cfg, k + 1, p, asset, day, v) {
      if p in memo && run.memo[p] == memo[p] {
        assert HasEntry(CacheIn(memo, p), asset, day, v);
        JustifiedLater(cfg, k, p, asset, day, v);
      } else {
        assert LeftByCall(sc, run, p);
        var c :| c in run.calls && c.path == p && p in run.memo && Leaves(sc, c) == Some(run.memo[p]);
        LeftIsJustified(cfg, k, memo, c, asset, day, v);
      }
    }
  }

  /* ---- one session ---- */

  function PlainResult(r: StepResult): StepResult {
    r.(engine := r.engine.Plain())
  }

  /** The memo of a state that can go on is justified. */
  ghost predicate MemoJustified(cfg: Config, k: nat, e: EngineState)
    requires ConfigOk(cfg) && k <= |Window(cfg)|
  {
    e.memo.Some? && Justified(cfg, k, e.memo.value)
  }

  lemma OpenPlain(cfg: Config, e: EngineState, s: MarketSession)
    ensures AtOpen(cfg, e.Plain(), s) == PlainResult(AtOpen(cfg, e, s)) && AtOpen(cfg, e, s).engine.memo == e.memo
  {
    hide AsOf, ApplyOrders, PositiveOpens;
  }

  lemma MarkPlain(cfg: Config, e: EngineState, s: MarketSession)
    ensures AtMark(cfg, e.Plain(), s) == PlainResult(AtMark(cfg, e, s)) && AtMark(cfg, e, s).engine.memo == e.memo
  {
    hide AsOf, MarkToMarket;
  }

  lemma OutcomePlain(cfg: Config, e: EngineState, s: MarketSession, next: MarketSession, a: Outcome, b: Outcome)
    requires SameOutcome(a, b) && e.memo.Some?
    ensures AfterOutcome(cfg, e.Plain(), s, next, b) == PlainResult(AfterOutcome(cfg, e, s, next, a))
    ensures AfterOutcome(cfg, e, s, next, a).engine.memo == Some(a.memo)
    ensures AfterOutcome(cfg, e, s, next, a).failure.None? ==> a.Ok()
  {
    hide AsOf, Reconciliation.Reconcile, ClosesAt, Omitted, NodeTrace, Reconciliation.PlanningSet;
  }

  lemma ClosePlain(cfg: Config, k: nat, e: EngineState)
    requires ConfigOk(cfg) && k < |Window(cfg)| && MemoSafe(cfg) && MemoJustified(cfg, k, e)
    ensures AtClose(cfg, WarmupOf(cfg), e.Plain(), Window(cfg)[k]) == PlainResult(AtClose(cfg, WarmupOf(cfg), e, Window(cfg)[k]))
    ensures var r := AtClose(cfg, WarmupOf(cfg), e, Window(cfg)[k]); r.failure.None? ==> MemoJustified(cfg, k + 1, r.engine)
  {
    hide AsOf, Window, WarmupOf, KeyedByIdentity, Resolution.Resolvable, MemoSafe, Evaluation, AfterOutcome, GateAt, Justified;
    var s := Window(cfg)[k];
    var gate := GateAt(cfg, WarmupOf(cfg), s);
    if gate.Open? {
      EvaluationSame(cfg, k, e.memo.value);
      var a := Evaluation(cfg.catalog, cfg.document, cfg.components, Context(AsOf(cfg.data, s.closeAt), e.memo));
      var b := Evaluation(cfg.catalog, cfg.document, cfg.components, PlainAt(cfg, s.closeAt));
      OutcomePlain(cfg, e, s, gate.next, a, b);
      if a.Ok() {
        EvaluationJustifies(cfg, k, e.memo.value);
      }
    } else {
      JustifiedStays(cfg, k, e.memo.value);
    }
  }

  lemma JustifiedStays(cfg: Config, k: nat, memo: Memo)
    requires ConfigOk(cfg) && k < |Window(cfg)| && Justified(cfg, k, memo)
    ensures Justified(cfg, k + 1, memo)
  {
    hide EntryJustified, Window, ConfigOk;
    forall p, asset, day, v | HasEntry(CacheIn(memo, p), asset, day, v) ensures EntryJustified(cfg, k + 1, p, asset, day, v) {
      JustifiedLater(cfg, k, p, asset, day, v);
    }
  }

  /** A session does the same with a justified memo as without one, and if it does not fail the memo stays justified. */
  lemma StepPlain(cfg: Config, k: nat, e: EngineState)
    requires ConfigOk(cfg) && k < |Window(cfg)| && MemoSafe(cfg) && MemoJustified(cfg, k, e)
    ensures Step(cfg, WarmupOf(cfg), e.Plain(), Window(cfg)[k]) == PlainResult(Step(cfg, WarmupOf(cfg), e, Window(cfg)[k]))
    ensures var r := Step(cfg, WarmupOf(cfg), e, Window(cfg)[k]); r.failure.None? ==> MemoJustified(cfg, k + 1, r.engine)
  {
    hide Window, WarmupOf, ConfigOk, MemoSafe, AtOpen, AtMark, AtClose, Justified;
    var s := Window(cfg)[k];
    OpenPlain(cfg, e, s);
    var filled := AtOpen(cfg, e, s);
    if filled.failure.None? {
      MarkPlain(cfg, filled.engine, s);
      var marked := AtMark(cfg, filled.engine, s);
      if marked.failure.None? {
        ClosePlain(cfg, k, marked.engine);
      }
    }
  }

  /* ---- whole runs ---- */

  /** The first k sessions of the run, without a memo. */
  ghost function PlainSteps(cfg: Config, initial: PortfolioState, k: nat): StepResult
    requires ConfigOk(cfg) && k <= |Window(cfg)|
  {
    Steps(cfg, WarmupOf(cfg), Initial(initial).Plain(), Window(cfg)[..k])
  }

  /** Sharing the memo between all evaluations of a run changes nothing: every state, record and failure is the one of the run
      without a memo. */
  lemma {:induction false} RunPlain(cfg: Config, initial: PortfolioState, k: nat)
    requires ConfigOk(cfg) && MemoSafe(cfg) && k <= |Window(cfg)|
    ensures var r := Steps(cfg, WarmupOf(cfg), Initial(initial), Window(cfg)[..k]);
      PlainResult(r) == PlainSteps(cfg, initial, k) && (r.failure.None? ==> MemoJustified(cfg, k, r.engine))
  {
    hide Window, WarmupOf, ConfigOk, MemoSafe, Engine.Step, Justified;
    if k == 0 {
      EmptyJustified(cfg, 0);
    } else {
      RunPlain(cfg, initial, k - 1);
      StepsSnoc(cfg, WarmupOf(cfg), Initial(initial), Window(cfg), k - 1);
      StepsSnoc(cfg, WarmupOf(cfg), Initial(initial).Plain(), Window(cfg), k - 1);
      var before := Steps(cfg, WarmupOf(cfg), Initial(initial), Window(cfg)[..k - 1]);
      if before.failure.None? {
        StepPlain(cfg, k - 1, before.engine);
      }
    }
  }

  /** The backtest of an engine whose memo is switched off. */
  ghost function PlainBacktest(cfg: Config, initial: PortfolioState): BacktestResult
    requires ConfigOk(cfg)
  {
    var refused := EntryCheck(cfg);
    if refused.Some? then Finish(Window(cfg), Initial(initial), refused)
    else
      var r := PlainSteps(cfg, initial, |Window(cfg)|);
      Finish(Window(cfg), r.engine, r.failure)
  }

  /** The memo never changes what a run produces. */
  lemma MemoIsInvisible(cfg: Config, initial: PortfolioState)
    requires ConfigOk(cfg) && MemoSafe(cfg)
    ensures Backtest(cfg, initial) == PlainBacktest(cfg, initial)
  {
    hide Window, WarmupOf, ConfigOk, MemoSafe, Steps, EntryCheck, Justified;
    RunPlain(cfg, initial, |Window(cfg)|);
    assert Window(cfg)[..|Window(cfg)|] == Window(cfg);
  }

  /* ---- catalogs that meet the condition ---- */

  /** As the program's own catalog: series come from the price node and from averages only, and nothing else uses the memo. */
  ghost predicate StandardCatalog(cat: Catalog) {
    forall k :: k in cat.byKey ==>
      IsPrice(cat.byKey[k]) || IsAverage(cat.byKey[k]) || (IgnoresMemo(cat.byKey[k]) && ProducesNoSeries(cat.byKey[k]))
  }

  lemma StandardGrows(d: DataSet, cat: Catalog)
    requires StandardCatalog(cat)
    ensures OnlyAveragesMemoise(cat) && SeriesKeepGrowing(d, cat)
  {
    hide IsPrice, IsAverage, IgnoresMemo, ProducesNoSeries, KeepsGrowth;
    forall k | k in cat.byKey
      ensures IgnoresMemo(cat.byKey[k]) || IsAverage(cat.byKey[k])
      ensures KeepsGrowth(d, cat.byKey[k]) || ProducesNoSeries(cat.byKey[k])
    {
      var i := cat.byKey[k];
      if IsPrice(i) {
        PriceIgnoresMemo(i);
        PriceKeepsGrowth(d, i);
      } else if IsAverage(i) {
        AverageKeepsGrowth(d, i);
      }
    }
  }

  /** The evaluation at an instant succeeded only if its execution did. */
  lemma SucceededRan(cfg: Config, t: Instant)
    requires ConfigOk(cfg) && SucceedsAt(cfg, t)
    ensures PreflightOf(cfg.catalog, cfg.document, cfg.components).Ok() && AsOf(cfg.data, t).sessions != []
    ensures Runnable(LeastPlan, RootOfRun(cfg), []) && RunOf(Planned(cfg.catalog, PlainAt(cfg, t)), RootOfRun(cfg)).failure.None?
  {
    hide PreflightOf, KeyedByIdentity, Resolution.Resolvable, RunOf, RootOf, Runnable, WellWired, AsOf, TerminalNodes;
    NoFaultsMeansClean(cfg.catalog, cfg.document, cfg.components, PlainAt(cfg, t));
    RootIsRunnable(cfg.catalog, cfg.document, cfg.components);
  }

  lemma DeliveriesOfGrowing(cfg: Config, t: Instant, u: Instant)
    requires ConfigOk(cfg) && SeriesKeepGrowing(cfg.data, cfg.catalog) && t <= u && SucceedsAt(cfg, t)
    ensures DeliveriesGrow(cfg, t, u)
  {
    hide PreflightOf, KeyedByIdentity, Resolution.Resolvable, RunOf, RootOf, Runnable, WellWired, AsOf, SeriesKeepGrowing, SeriesGrow, AverageCall, MapsGrow;
    NoFaultsMeansClean(cfg.catalog, cfg.document, cfg.components, PlainAt(cfg, t));
    NoFaultsMeansClean(cfg.catalog, cfg.document, cfg.components, PlainAt(cfg, u));
    SucceededRan(cfg, t);
    RootIsRunnable(cfg.catalog, cfg.document, cfg.components);
    var sc, sc' := Planned(cfg.catalog, PlainAt(cfg, t)), Planned(cfg.catalog, PlainAt(cfg, u));
    ViewsAreTheirs(cfg.data, t);
    ViewsAreTheirs(cfg.data, u);
    EvaluationsGrow(cfg.data, sc, sc', RootOfRun(cfg));
    forall c, d | c in CallsAt(cfg, t) && d in CallsAt(cfg, u) && c.path == d.path && AverageCall(cfg.catalog, c) && AverageCall(cfg.catalog, d)
      ensures SERIES in c.inputs && SERIES in d.inputs && c.inputs[SERIES].TimeSeriesValue? && d.inputs[SERIES].TimeSeriesValue?
      ensures SeriesGrow(c.inputs[SERIES].series, d.inputs[SERIES].series)
    {
      CallReady(cfg.catalog, c);
      CallReady(cfg.catalog, d);
      assert InputsGrow(c.inputs, d.inputs);
      assert ValueGrows(c.inputs[SERIES], d.inputs[SERIES]);
    }
  }

  lemma ViewsAreTheirs(d: DataSet, t: Instant)
    ensures AsOf(d, t).instant == t
  {
  }

  /** Whatever the document: over such a catalog what reaches an average only grows, so the memo is safe. */
  lemma GrowingCatalogIsSafe(cfg: Config)
    requires ConfigOk(cfg) && OnlyAveragesMemoise(cfg.catalog) && SeriesKeepGrowing(cfg.data, cfg.catalog)
    ensures MemoSafe(cfg)
  {
    hide Window, ConfigOk, AsOf, EvaluatesAt, SucceedsAt, DeliveriesGrow, OnlyAveragesMemoise, SeriesKeepGrowing;
    WindowIs(cfg);
    forall i, k | 0 <= i < k < |Window(cfg)| && EvaluatesAt(cfg, i) && EvaluatesAt(cfg, k) && SucceedsAt(cfg, Window(cfg)[i].closeAt)
      ensures DeliveriesGrow(cfg, Window(cfg)[i].closeAt, Window(cfg)[k].closeAt)
    {
      DeliveriesOfGrowing(cfg, Window(cfg)[i].closeAt, Window(cfg)[k].closeAt);
    }
  }

  lemma StandardCatalogIsSafe(cfg: Config)
    requires ConfigOk(cfg) && StandardCatalog(cfg.catalog)
    ensures MemoSafe(cfg)
  {
    hide ConfigOk, MemoSafe, StandardCatalog, OnlyAveragesMemoise, SeriesKeepGrowing;
    StandardGrows(cfg.data, cfg.catalog);
    GrowingCatalogIsSafe(cfg);
  }
}
