/** No look-ahead: what a run has done after a session depends only on what was knowable by that session's close. */
module LookAhead {
  import opened Closure
  import opened Collections
  import opened Diagnostics
  import opened Engine
  import opened Evaluator
  import opened Fills
  import opened Market
  import opened Portfolio
  import Reconciliation
  import Resolution
  import Schedule
  import opened Sessions
  import opened StrategyEvaluation

  ghost predicate ClosesShared(a: seq<Observation>, b: seq<Observation>, t: Instant) {
    forall i :: 0 <= i < |a| && a[i].closeAt <= t ==>
      exists j :: 0 <= j < |b| && b[j].date == a[i].date && b[j].close == a[i].close && b[j].closeAt == a[i].closeAt
  }

  ghost predicate OpensShared(a: seq<Observation>, b: seq<Observation>, t: Instant) {
    forall i :: 0 <= i < |a| && a[i].openAt <= t ==>
      exists j :: 0 <= j < |b| && b[j].date == a[i].date && b[j].open == a[i].open && b[j].openAt == a[i].openAt
  }

  /** The two series show the same prices, each available at the same instant, up to t. */
  ghost predicate SeriesAgree(a: seq<Observation>, b: seq<Observation>, t: Instant) {
    ClosesShared(a, b, t) && ClosesShared(b, a, t) && OpensShared(a, b, t) && OpensShared(b, a, t)
  }

  /** Same calendar, same assets, and the same observations available by t. */
  ghost predicate AgreeUpTo(a: DataSet, b: DataSet, t: Instant) {
    && a.calendar == b.calendar && a.observations.Keys == b.observations.Keys
    && forall asset :: asset in a.observations ==> SeriesAgree(a.observations[asset], b.observations[asset], t)
  }

  lemma ClosesIncluded(a: seq<Observation>, b: seq<Observation>, t: Instant, u: Instant, p: Point)
    requires ClosesShared(a, b, t) && u <= t && p in VisibleCloses(a, u)
    ensures p in VisibleCloses(b, u)
  {
    VisibleClosesMember(a, u, p);
    VisibleClosesMember(b, u, p);
    var i :| 0 <= i < |a| && CloseVisible(a[i], u) && p == Point(a[i].date, a[i].close);
    var j :| 0 <= j < |b| && b[j].date == a[i].date && b[j].close == a[i].close && b[j].closeAt == a[i].closeAt;
    assert CloseVisible(b[j], u);
  }

  lemma OpensIncluded(a: seq<Observation>, b: seq<Observation>, t: Instant, u: Instant, p: Point)
    requires OpensShared(a, b, t) && u <= t && p in VisibleOpens(a, u)
    ensures p in VisibleOpens(b, u)
  {
    VisibleOpensMember(a, u, p);
    VisibleOpensMember(b, u, p);
  }

  lemma FirstIn(h: seq<Point>)
    ensures h != [] ==> h[0] in h
  {
  }

  /** An ascending history is determined by its points. */
  lemma {:induction false} HistoryUnique(a: seq<Point>, b: seq<Point>)
    requires AscendingDates(a) && AscendingDates(b)
    requires forall p :: p in a <==> p in b
    ensures a == b
  {
    if a == [] {
      FirstIn(b);
    } else {
      assert a[0] in a && a[0] in b;
      assert b[0] in b && b[0] in a;
      assert a[0] == b[0];
      forall p ensures p in a[1..] <==> p in b[1..] {
        if p in a[1..] { assert p in a && p != a[0]; assert p in b; }
        if p in b[1..] { assert p in b && p != b[0]; assert p in a; }
      }
      HistoryUnique(a[1..], b[1..]);
    }
  }

  lemma HistoriesAgree(calendar: Calendar, a: seq<Observation>, b: seq<Observation>, t: Instant, u: Instant)
    requires SeriesOk(calendar, a) && SeriesOk(calendar, b) && SeriesAgree(a, b, t) && u <= t
    ensures VisibleCloses(a, u) == VisibleCloses(b, u) && VisibleOpens(a, u) == VisibleOpens(b, u)
  {
    hide VisibleCloses, VisibleOpens, ClosesShared, OpensShared, ObservationOk;
    VisibleClosesAscend(a, u);
    VisibleClosesAscend(b, u);
    VisibleOpensAscend(a, u);
    VisibleOpensAscend(b, u);
    forall p ensures p in VisibleCloses(a, u) <==> p in VisibleCloses(b, u) {
      if p in VisibleCloses(a, u) { ClosesIncluded(a, b, t, u, p); }
      if p in VisibleCloses(b, u) { ClosesIncluded(b, a, t, u, p); }
    }
    forall p ensures p in VisibleOpens(a, u) <==> p in VisibleOpens(b, u) {
      if p in VisibleOpens(a, u) { OpensIncluded(a, b, t, u, p); }
      if p in VisibleOpens(b, u) { OpensIncluded(b, a, t, u, p); }
    }
    HistoryUnique(VisibleCloses(a, u), VisibleCloses(b, u));
    HistoryUnique(VisibleOpens(a, u), VisibleOpens(b, u));
  }

  /** Datasets that agree up to t show the same view at every instant up to t. */
  lemma ViewsAgree(a: DataSet, b: DataSet, t: Instant, u: Instant)
    requires AgreeUpTo(a, b, t) && u <= t
    ensures AsOf(a, u) == AsOf(b, u)
  {
    hide VisibleCloses, VisibleOpens, SeriesAgree, SeriesOk, ClosedBy;
    forall asset | asset in a.observations
      ensures VisibleCloses(a.observations[asset], u) == VisibleCloses(b.observations[asset], u)
      ensures VisibleOpens(a.observations[asset], u) == VisibleOpens(b.observations[asset], u)
    {
      HistoriesAgree(a.calendar, a.observations[asset], b.observations[asset], t, u);
    }
    assert AsOf(a, u).closes == AsOf(b, u).closes;
    assert AsOf(a, u).opens == AsOf(b, u).opens;
  }

  /** The same run over another dataset. */
  function Over(cfg: Config, data: DataSet): Config {
    cfg.(data := data)
  }

  lemma OpenAgrees(cfg: Config, data: DataSet, e: EngineState, s: MarketSession)
    requires AsOf(cfg.data, s.openAt) == AsOf(data, s.openAt)
    ensures AtOpen(cfg, e, s) == AtOpen(Over(cfg, data), e, s)
  {
    hide AsOf, ApplyOrders, PositiveOpens;
  }

  lemma MarkAgrees(cfg: Config, data: DataSet, e: EngineState, s: MarketSession)
    requires AsOf(cfg.data, s.closeAt) == AsOf(data, s.closeAt)
    ensures AtMark(cfg, e, s) == AtMark(Over(cfg, data), e, s)
  {
    hide AsOf, MarkToMarket;
  }

  lemma CloseAgrees(cfg: Config, data: DataSet, warmup: int, e: EngineState, s: MarketSession)
    requires ConfigOk(cfg) && cfg.data.calendar == data.calendar && AsOf(cfg.data, s.closeAt) == AsOf(data, s.closeAt)
    ensures AtClose(cfg, warmup, e, s) == AtClose(Over(cfg, data), warmup, e, s)
  {
    hide AsOf, Evaluation, Reconciliation.Reconcile, ClosesAt, Omitted, VisibleSessions, Schedule.Firing, KeyedByIdentity, Resolution.Resolvable,
      NodeTrace, Reconciliation.PlanningSet;
  }

  lemma StepAgrees(cfg: Config, data: DataSet, warmup: int, e: EngineState, s: MarketSession)
    requires ConfigOk(cfg) && AgreeUpTo(cfg.data, data, s.closeAt) && s.openAt < s.closeAt
    ensures Step(cfg, warmup, e, s) == Step(Over(cfg, data), warmup, e, s)
  {
    hide AsOf, AtOpen, AtMark, AtClose, SeriesAgree, KeyedByIdentity, Resolution.Resolvable;
    ViewsAgree(cfg.data, data, s.closeAt, s.openAt);
    ViewsAgree(cfg.data, data, s.closeAt, s.closeAt);
    OpenAgrees(cfg, data, e, s);
    var filled := AtOpen(cfg, e, s);
    MarkAgrees(cfg, data, filled.engine, s);
    CloseAgrees(cfg, data, warmup, AtMark(cfg, filled.engine, s).engine, s);
  }

  lemma AgreeEarlier(a: DataSet, b: DataSet, t: Instant, u: Instant)
    requires AgreeUpTo(a, b, t) && u <= t
    ensures AgreeUpTo(a, b, u)
  {
  }

  lemma {:induction false} StepsAgree(cfg: Config, data: DataSet, warmup: int, e: EngineState, n: nat, t: Instant)
    requires ConfigOk(cfg) && n <= |Window(cfg)| && AgreeUpTo(cfg.data, data, t)
    requires n > 0 ==> Window(cfg)[n - 1].closeAt <= t
    ensures Steps(cfg, warmup, e, Window(cfg)[..n]) == Steps(Over(cfg, data), warmup, e, Window(cfg)[..n])
  {
    hide Window, Engine.Step, AgreeUpTo, ConfigOk;
    if n > 0 {
      WindowIs(cfg);
      var w := Window(cfg);
      OverOk(cfg, data);
      StepsSnoc(cfg, warmup, e, w, n - 1);
      StepsSnoc(Over(cfg, data), warmup, e, w, n - 1);
      StepsAgree(cfg, data, warmup, e, n - 1, t);
      AgreeEarlier(cfg.data, data, t, w[n - 1].closeAt);
      StepAgrees(cfg, data, warmup, Steps(cfg, warmup, e, w[..n - 1]).engine, w[n - 1]);
    }
  }

  lemma OverOk(cfg: Config, data: DataSet)
    requires ConfigOk(cfg)
    ensures ConfigOk(Over(cfg, data))
  {
  }

  /** Two datasets that agree on everything available by session k's close drive the engine to the same state, queue,
      valuations, evaluations, fills, notes, trace and failure after session k. */
  lemma NoLookAhead(cfg: Config, data: DataSet, initial: PortfolioState, k: nat)
    requires ConfigOk(cfg) && k < |Window(cfg)| && AgreeUpTo(cfg.data, data, Window(cfg)[k].closeAt)
    ensures Window(Over(cfg, data)) == Window(cfg)
    ensures ConfigOk(Over(cfg, data)) && EntryCheck(Over(cfg, data)) == EntryCheck(cfg) && WarmupOf(Over(cfg, data)) == WarmupOf(cfg)
    ensures Steps(Over(cfg, data), WarmupOf(Over(cfg, data)), Initial(initial), Window(Over(cfg, data))[..k + 1])
         == Steps(cfg, WarmupOf(cfg), Initial(initial), Window(cfg)[..k + 1])
  {
    hide Steps, SeriesAgree, KeyedByIdentity, Resolution.Resolvable, Resolution.Resolve;
    StepsAgree(cfg, data, WarmupOf(cfg), Initial(initial), k + 1, Window(cfg)[k].closeAt);
  }

  /* ---- tracing is passive ---- */

  function Untraced(cfg: Config): Config {
    cfg.(collectTrace := false)
  }

  function Silent(r: StepResult): StepResult {
    r.(engine := r.engine.(trace := []))
  }

  lemma TargetsSilently(cfg: Config, e: EngineState, s: MarketSession, next: MarketSession, targets: Weights)
    ensures AfterTargets(Untraced(cfg), e.(trace := []), s, next, targets) == Silent(AfterTargets(cfg, e, s, next, targets))
  {
    hide AsOf, Reconciliation.Reconcile, ClosesAt, Omitted, Reconciliation.PlanningSet;
  }

  lemma OutcomeSilently(cfg: Config, e: EngineState, s: MarketSession, next: MarketSession, outcome: Outcome)
    ensures AfterOutcome(Untraced(cfg), e.(trace := []), s, next, outcome) == Silent(AfterOutcome(cfg, e, s, next, outcome))
  {
    hide AfterTargets, NodeTrace;
    var left := e.(memo := if e.memo.Some? then Some(outcome.memo) else None);
    var traced := if cfg.collectTrace then left.(trace := e.trace + NodeTrace(s.closeAt, outcome.trace)) else left;
    if outcome.Ok() {
      TargetsSilently(cfg, traced, s, next, outcome.targets.value);
    }
  }

  lemma CloseSilently(cfg: Config, warmup: int, e: EngineState, s: MarketSession)
    requires ConfigOk(cfg)
    ensures AtClose(Untraced(cfg), warmup, e.(trace := []), s) == Silent(AtClose(cfg, warmup, e, s))
  {
    hide AsOf, Evaluation, AfterOutcome, VisibleSessions, Schedule.Firing, KeyedByIdentity, Resolution.Resolvable;
    var gate := GateAt(cfg, warmup, s);
    if gate.Open? {
      OutcomeSilently(cfg, e, s, gate.next, Evaluation(cfg.catalog, cfg.document, cfg.components, Context(AsOf(cfg.data, s.closeAt), e.memo)));
    }
  }

  lemma OpenSilently(cfg: Config, e: EngineState, s: MarketSession)
    ensures AtOpen(Untraced(cfg), e.(trace := []), s) == Silent(AtOpen(cfg, e, s))
  {
    hide AsOf, ApplyOrders, PositiveOpens;
  }

  lemma StepSilently(cfg: Config, warmup: int, e: EngineState, s: MarketSession)
    requires ConfigOk(cfg)
    ensures Step(Untraced(cfg), warmup, e.(trace := []), s) == Silent(Step(cfg, warmup, e, s))
  {
    hide AsOf, AtOpen, AtClose, MarkToMarket, KeyedByIdentity, Resolution.Resolvable;
    OpenSilently(cfg, e, s);
    var filled := AtOpen(cfg, e, s);
    CloseSilently(cfg, warmup, AtMark(cfg, filled.engine, s).engine, s);
  }

  /** Tracing changes nothing but the trace: a run without it has the same state, records and failure. */
  lemma {:induction false} TracingIsPassive(cfg: Config, warmup: int, e: EngineState, sessions: seq<MarketSession>)
    requires ConfigOk(cfg)
    ensures Steps(Untraced(cfg), warmup, e.(trace := []), sessions) == Silent(Steps(cfg, warmup, e, sessions))
  {
    hide Engine.Step, KeyedByIdentity, Resolution.Resolvable;
    if sessions != [] {
      var n := |sessions| - 1;
      TracingIsPassive(cfg, warmup, e, sessions[..n]);
      StepSilently(cfg, warmup, Steps(cfg, warmup, e, sessions[..n]).engine, sessions[n]);
    }
  }
}
