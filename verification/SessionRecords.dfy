/** What one session leaves behind, and when: `SessionEngine.step` of quantize/engine/backtest.py, told by positions in the
    calendar, observations and records. */
module SessionRecords {
  import opened Closure
  import opened Collections
  import opened Diagnostics
  import opened Documents
  import opened Engine
  import opened Evaluator
  import opened Fills
  import opened FillLoops
  import opened Lookups
  import opened Market
  import opened Marks
  import opened PlanNumbers
  import opened Portfolio
  import Reconciliation
  import Resolution
  import opened RunTheorems
  import opened Schedule
  import opened Sessions
  import opened StrategyEvaluation

  /* ---- when a session evaluates ---- */

  /** The schedule fires at session i of the calendar: every session, or the last one of its period. */
  ghost predicate FiresAt(cfg: Config, i: nat)
    requires i < |cfg.data.calendar|
  {
    var c := cfg.data.calendar;
    cfg.schedule.Daily? || i + 1 == |c| || cfg.schedule.period(c[i + 1].date) != cfg.schedule.period(c[i].date)
  }

  /** The order would fill in a session of the calendar that lies past the run's bound. */
  ghost predicate PastBound(cfg: Config, i: nat)
    requires i + 1 < |cfg.data.calendar|
  {
    cfg.last.Some? && cfg.last.value < cfg.data.calendar[i + 1].date
  }

  /** At a firing session i, i + 1 sessions are visible: too few for the warm-up, or enough but there is no session to fill in,
      or it lies past the bound. */
  ghost predicate NoteDue(cfg: Config, warmup: int, i: nat, code: NoteCode)
    requires i < |cfg.data.calendar|
  {
    FiresAt(cfg, i)
    && match code
       case WarmupNotSatisfied => i + 1 <= warmup
       case NoNextSession => i + 1 > warmup && i + 1 == |cfg.data.calendar|
       case FillOutsideWindow => i + 1 > warmup && i + 1 < |cfg.data.calendar| && PastBound(cfg, i)
  }

  ghost predicate EvaluationDue(cfg: Config, warmup: int, i: nat)
    requires i < |cfg.data.calendar|
  {
    FiresAt(cfg, i) && i + 1 > warmup && i + 1 < |cfg.data.calendar| && !PastBound(cfg, i)
  }

  lemma FiresIff(cfg: Config, i: nat)
    requires i < |cfg.data.calendar|
    ensures cfg.data.calendar[i].date in cfg.Fires() <==> FiresAt(cfg, i)
  {
    var c := cfg.data.calendar;
    var dates := DatesOf(c);
    match cfg.schedule
    case Daily =>
      assert dates[i] == c[i].date;
    case Periodic(period) =>
      PeriodEndsMember(period, dates, |dates|, c[i].date);
      if FiresAt(cfg, i) {
        assert dates[i] == c[i].date && LastOfPeriod(period, dates, i);
      }
      if c[i].date in cfg.Fires() {
        var j :| 0 <= j < |dates| && dates[j] == c[i].date && LastOfPeriod(period, dates, j);
        assert j == i;
      }
  }

  lemma {:induction false} VisibleAre(calendar: Calendar, n: nat, k: nat)
    requires k < n <= |calendar|
    ensures VisibleSessions(calendar[..n], calendar[k].date) == k + 1
  {
    if k < n - 1 {
      assert calendar[..n][..n - 1] == calendar[..n - 1];
      VisibleAre(calendar, n - 1, k);
    }
  }

  /** Which note is due, or which session the orders would fill in. */
  lemma GateIs(cfg: Config, warmup: int, i: nat)
    requires i < |cfg.data.calendar|
    ensures var gate := GateAt(cfg, warmup, cfg.data.calendar[i]);
      && (forall code :: gate == Declined(code) <==> NoteDue(cfg, warmup, i, code))
      && (gate.Open? <==> EvaluationDue(cfg, warmup, i))
      && (gate.Open? ==> gate.next == cfg.data.calendar[i + 1])
  {
    hide FiresAt, Firing, VisibleSessions, NextSessionAfter;
    var c := cfg.data.calendar;
    FiresIff(cfg, i);
    VisibleAre(c, |c|, i);
    assert c[..|c|] == c;
    NextSessionIsNext(c, i);
  }

  /* ---- what a session records ---- */

  /** Engine events at an instant, if the run collects a trace. */
  function Emitted(cfg: Config, at: Instant, payloads: seq<EngineEvent>): seq<TraceEvent> {
    if !cfg.collectTrace || payloads == [] then [] else [FromEngine(at, payloads[0])] + Emitted(cfg, at, payloads[1..])
  }

  ghost predicate FillsAt(s: MarketSession, fills: seq<Fill>, events: seq<FillEvent>) {
    |events| == |fills| && forall i :: 0 <= i < |fills| ==> events[i] == FillEvent(s.date, s.openAt, fills[i])
  }

  /** The open: orders queued for this session are filled at its opens, dated to it, and leave the queue, or all are refused. */
  ghost predicate OpenSays(cfg: Config, e: EngineState, s: MarketSession, r: StepResult) {
    if e.pending.None? || e.pending.value.session != s.date then r == StepResult(e, None)
    else
      AsOfOpensPositive(cfg.data, s.openAt);
      var result := ApplyOrders(e.state, e.pending.value.orders, AsOf(cfg.data, s.openAt), s.date, cfg.document.bps);
      if result.Rejected? then r == StepResult(e, Some(result.diagnostics))
      else exists events :: FillsAt(s, result.fills, events) && r == StepResult(FilledState(cfg, e, s, result.state, result.fills, events), None)
  }

  function FilledState(cfg: Config, e: EngineState, s: MarketSession, state: PortfolioState, fills: seq<Fill>, events: seq<FillEvent>): EngineState {
    e.(state := state, fills := e.fills + events, pending := None,
       trace := e.trace + Emitted(cfg, s.openAt, [OrdersFilled(s.date, fills), StateTransition(s.date, e.state, state)]))
  }

  /** The mark: one valuation, dated to the session, with its stale marks; or the first holding without a close. */
  ghost predicate MarkedSays(cfg: Config, e: EngineState, s: MarketSession, r: StepResult) {
    if r.failure.Some? then
      r.engine == e && exists a :: FirstUnmarked(cfg.data, s.closeAt, e.state, a) && r.failure.value == multiset{Fault(MissingValuationPrice, a)}
    else exists value, stale ::
        ValuedAt(cfg.data, s.closeAt, e.state, value) && StaleAt(cfg.data, s, e.state, stale)
        && r.engine == e.(valuations := e.valuations + [(s.date, value)], staleMarks := e.staleMarks + stale)
  }

  /** For exactly the held and targeted assets with a close of this very session, that close. */
  ghost predicate PlanPrices(d: DataSet, s: MarketSession, state: PortfolioState, targets: Weights, prices: map<Asset, real>) {
    forall a, v :: Get(prices, a) == Some(v) <==>
      (a in state.positions || (a in targets && targets[a] > 0.0)) && Closed(d, s.closeAt, a, s.date, v)
  }

  /** The record of an evaluation: its targets, the plan they give at this session's closes, and the session it fills in. */
  ghost predicate RecordSays(cfg: Config, state: PortfolioState, s: MarketSession, next: MarketSession, targets: Weights, record: EvaluationRecord) {
    && record.session == s.date && record.at == s.closeAt && record.weights == targets
    && record.fillSession == next.date && record.fillAt == next.openAt
    && exists prices :: PlanPrices(cfg.data, s, state, targets, prices) && record.plan == Reconciliation.Reconcile(state, targets, prices)
  }

  /** The rows of a plan that trade nothing, in order. */
  function Idle(rows: seq<Reconciliation.AssetPlan>): seq<Reconciliation.AssetPlan> {
    if rows == [] then []
    else (if rows[0].action in {Reconciliation.Dust, Reconciliation.Hold} then [rows[0]] else []) + Idle(rows[1..])
  }

  /** What the nodes told, each at the instant of the evaluation, if the run collects a trace. */
  ghost predicate NodesTold(cfg: Config, at: Instant, events: seq<NodeEvent>, told: seq<TraceEvent>) {
    if cfg.collectTrace then |told| == |events| && forall i :: 0 <= i < |events| ==> told[i] == FromNode(at, events[i]) else told == []
  }

  /** Memo and trace after an evaluation. */
  function EvaluatedState(e: EngineState, outcome: Outcome, told: seq<TraceEvent>): EngineState {
    e.(memo := if e.memo.None? then None else Some(outcome.memo), trace := e.trace + told)
  }

  /** The record of a plan and, unless it is empty, its orders in the queue. */
  ghost predicate PlannedSays(cfg: Config, e: EngineState, s: MarketSession, next: MarketSession, targets: Weights, r: StepResult) {
    exists record :: RecordSays(cfg, e.state, s, next, targets, record) && PlanQueuedSays(cfg, e, s, next, record, r)
  }

  ghost predicate PlanQueuedSays(cfg: Config, e: EngineState, s: MarketSession, next: MarketSession, record: EvaluationRecord, r: StepResult) {
    var recorded := e.(evaluations := e.evaluations + [record]);
    match record.plan
    case Refused(diagnostics) => r == StepResult(recorded, Some(multiset{Fault(ReconciliationFailed, s.date)} + diagnostics))
    case Planned(orders, pv, targetCash, projectedCash, rows) =>
      r == StepResult(recorded.(trace := e.trace + Emitted(cfg, s.closeAt, [OrdersProposed(s.date, pv, targetCash, projectedCash, orders, Idle(rows))]),
                                pending := if orders == [] then e.pending else Some(Pending(orders, next.date))), None)
  }

  /** The evaluation of the document on what is visible at the close. */
  ghost predicate EvaluatedSays(cfg: Config, e: EngineState, s: MarketSession, next: MarketSession, r: StepResult)
    requires ConfigOk(cfg)
  {
    var outcome := Evaluation(cfg.catalog, cfg.document, cfg.components, Context(AsOf(cfg.data, s.closeAt), e.memo));
    exists told :: NodesTold(cfg, s.closeAt, outcome.trace, told)
      && if outcome.targets.None?
         then r == StepResult(EvaluatedState(e, outcome, told), Some(multiset{Fault(EvaluationFailed, s.date)} + multiset(outcome.diagnostics)))
         else PlannedSays(cfg, EvaluatedState(e, outcome, told), s, next, outcome.targets.value, r)
  }

  /** The close of session i: a note, an evaluation, or nothing. */
  ghost predicate CloseSays(cfg: Config, warmup: int, e: EngineState, i: nat, r: StepResult)
    requires ConfigOk(cfg) && i < |cfg.data.calendar|
  {
    var s := cfg.data.calendar[i];
    && (forall code :: NoteDue(cfg, warmup, i, code) ==>
          r == StepResult(e.(notes := e.notes + [SessionNote(s.date, code)], trace := e.trace + Emitted(cfg, s.closeAt, [Noted(s.date, code)])), None))
    && (EvaluationDue(cfg, warmup, i) ==> EvaluatedSays(cfg, e, s, cfg.data.calendar[i + 1], r))
    && (!EvaluationDue(cfg, warmup, i) && (forall code :: !NoteDue(cfg, warmup, i, code)) ==> r == StepResult(e, None))
  }

  /** Session i of the calendar: the open, the mark and the close, up to the first failure. */
  ghost predicate SessionSays(cfg: Config, warmup: int, e: EngineState, i: nat, r: StepResult)
    requires ConfigOk(cfg) && i < |cfg.data.calendar|
  {
    exists filled, marked :: OpenSays(cfg, e, cfg.data.calendar[i], filled)
      && if filled.failure.Some? then r == filled
         else MarkedSays(cfg, filled.engine, cfg.data.calendar[i], marked)
              && if marked.failure.Some? then r == marked else CloseSays(cfg, warmup, marked.engine, i, r)
  }

  /* ---- it is so ---- */

  lemma OpenIs(cfg: Config, e: EngineState, s: MarketSession)
    ensures OpenSays(cfg, e, s, AtOpen(cfg, e, s))
  {
    hide ApplyOrders, AsOf, PositiveOpens;
    var r := AtOpen(cfg, e, s);
    if e.pending.Some? && e.pending.value.session == s.date {
      AsOfOpensPositive(cfg.data, s.openAt);
      var result := ApplyOrders(e.state, e.pending.value.orders, AsOf(cfg.data, s.openAt), s.date, cfg.document.bps);
      if result.Applied? {
        var events := FillEvents(s, result.fills);
        assert FillsAt(s, result.fills, events);
        TwoEmitted(cfg, e, s.openAt, OrdersFilled(s.date, result.fills), StateTransition(s.date, e.state, result.state));
        assert r == StepResult(FilledState(cfg, e, s, result.state, result.fills, events), None);
      }
    }
  }

  lemma TwoEmitted(cfg: Config, e: EngineState, at: Instant, a: EngineEvent, b: EngineEvent)
    ensures Traced(cfg, Traced(cfg, e, at, a), at, b) == e.(trace := e.trace + Emitted(cfg, at, [a, b]))
    ensures Traced(cfg, e, at, a) == e.(trace := e.trace + Emitted(cfg, at, [a]))
  {
    assert [a, b][1..] == [b] && [b][1..] == [] && [a][1..] == [];
    if cfg.collectTrace {
      assert Emitted(cfg, at, [b]) == [FromEngine(at, b)];
      assert Emitted(cfg, at, [a, b]) == [FromEngine(at, a), FromEngine(at, b)];
    } else {
      assert e.trace + [] == e.trace;
    }
  }

  lemma MarkedIs(cfg: Config, e: EngineState, s: MarketSession)
    ensures MarkedSays(cfg, e, s, AtMark(cfg, e, s))
  {
    hide AsOf, MarkToMarket, ValuedAt, StaleAt, FirstUnmarked;
    MarkSays(cfg.data, s, e.state);
    var mark := MarkToMarket(e.state, AsOf(cfg.data, s.closeAt), s.date);
    if mark.Marked? {
      assert ValuedAt(cfg.data, s.closeAt, e.state, mark.value) && StaleAt(cfg.data, s, e.state, mark.stale);
    }
  }

  lemma {:induction false} OmittedIsIdle(rows: seq<Reconciliation.AssetPlan>, row: Reconciliation.AssetPlan)
    ensures Idle(rows + [row]) == Idle(rows) + Idle([row])
  {
    if rows == [] {
      assert rows + [row] == [row];
    } else {
      assert (rows + [row])[1..] == rows[1..] + [row];
      OmittedIsIdle(rows[1..], row);
    }
  }

  lemma {:induction false} OmittedIs(rows: seq<Reconciliation.AssetPlan>)
    ensures Omitted(rows) == Idle(rows)
  {
    if rows != [] {
      var n := |rows| - 1;
      OmittedIs(rows[..n]);
      OmittedIsIdle(rows[..n], rows[n]);
      assert rows == rows[..n] + [rows[n]];
      assert [rows[n]][1..] == [];
    }
  }

  lemma PricesAre(cfg: Config, state: PortfolioState, i: nat, targets: Weights)
    requires i < |cfg.data.calendar|
    ensures var s := cfg.data.calendar[i];
      PlanPrices(cfg.data, s, state, targets, ClosesAt(AsOf(cfg.data, s.closeAt), s.date, Reconciliation.PlanningSet(state, targets)))
  {
    hide AsOf, Closed, ClosesAt, Reconciliation.PlanningSet;
    var s := cfg.data.calendar[i];
    var assets := Reconciliation.PlanningSet(state, targets);
    var prices := ClosesAt(AsOf(cfg.data, s.closeAt), s.date, assets);
    forall a, v ensures Get(prices, a) == Some(v) <==>
        (a in state.positions || (a in targets && targets[a] > 0.0)) && Closed(cfg.data, s.closeAt, a, s.date, v)
    {
      PlanningPrices(cfg.data, i, assets, a, v);
      PlanningMember(state, targets, a);
    }
  }

  lemma PlannedIs(cfg: Config, e: EngineState, i: nat, next: MarketSession, targets: Weights)
    requires i < |cfg.data.calendar|
    ensures PlannedSays(cfg, e, cfg.data.calendar[i], next, targets, AfterTargets(cfg, e, cfg.data.calendar[i], next, targets))
  {
    hide AsOf, Closed, ClosesAt, Reconciliation.PlanningSet, Reconciliation.Reconcile, PlanPrices, Omitted, Idle, Traced, Emitted;
    var s := cfg.data.calendar[i];
    var prices := ClosesAt(AsOf(cfg.data, s.closeAt), s.date, Reconciliation.PlanningSet(e.state, targets));
    PricesAre(cfg, e.state, i, targets);
    var plan := Reconciliation.Reconcile(e.state, targets, prices);
    var record := EvaluationRecord(s.date, s.closeAt, targets, plan, next.date, next.openAt);
    assert RecordSays(cfg, e.state, s, next, targets, record);
    if plan.Planned? {
      OmittedIs(plan.plans);
      var proposed := OrdersProposed(s.date, plan.portfolioValue, plan.targetCash, plan.projectedCash, plan.orders, Idle(plan.plans));
      TwoEmitted(cfg, e.(evaluations := e.evaluations + [record]), s.closeAt, proposed, proposed);
    }
    assert PlanQueuedSays(cfg, e, s, next, record, AfterTargets(cfg, e, s, next, targets));
  }

  lemma EvaluatedIs(cfg: Config, e: EngineState, i: nat, next: MarketSession)
    requires ConfigOk(cfg) && i < |cfg.data.calendar|
    ensures var s := cfg.data.calendar[i];
      EvaluatedSays(cfg, e, s, next,
                    AfterOutcome(cfg, e, s, next, Evaluation(cfg.catalog, cfg.document, cfg.components, Context(AsOf(cfg.data, s.closeAt), e.memo))))
  {
    hide AsOf, AfterTargets, Evaluation, KeyedByIdentity, Resolution.Resolvable, PlannedSays;
    var s := cfg.data.calendar[i];
    var outcome := Evaluation(cfg.catalog, cfg.document, cfg.components, Context(AsOf(cfg.data, s.closeAt), e.memo));
    var told := if cfg.collectTrace then NodeTrace(s.closeAt, outcome.trace) else [];
    assert NodesTold(cfg, s.closeAt, outcome.trace, told);
    assert e.trace + [] == e.trace;
    var after := EvaluatedState(e, outcome, told);
    if outcome.targets.Some? {
      PlannedIs(cfg, after, i, next, outcome.targets.value);
    }
  }

  lemma CloseIs(cfg: Config, warmup: int, e: EngineState, i: nat)
    requires ConfigOk(cfg) && i < |cfg.data.calendar|
    ensures CloseSays(cfg, warmup, e, i, AtClose(cfg, warmup, e, cfg.data.calendar[i]))
  {
    hide AsOf, AfterOutcome, Evaluation, ConfigOk, GateAt, NoteDue, EvaluationDue, EvaluatedSays, Emitted;
    var s := cfg.data.calendar[i];
    GateIs(cfg, warmup, i);
    var gate := GateAt(cfg, warmup, s);
    match gate
    case Quiet =>
    case Declined(code) =>
      TwoEmitted(cfg, e.(notes := e.notes + [SessionNote(s.date, code)]), s.closeAt, Noted(s.date, code), Noted(s.date, code));
      assert NoteDue(cfg, warmup, i, code);
    case Open(next) =>
      EvaluatedIs(cfg, e, i, next);
  }

  /** One step of the engine is what the session says. */
  lemma StepIs(cfg: Config, warmup: int, e: EngineState, i: nat)
    requires ConfigOk(cfg) && i < |cfg.data.calendar|
    ensures SessionSays(cfg, warmup, e, i, Step(cfg, warmup, e, cfg.data.calendar[i]))
  {
    hide AtOpen, AtMark, AtClose, OpenSays, MarkedSays, CloseSays, ConfigOk;
    var s := cfg.data.calendar[i];
    OpenIs(cfg, e, s);
    var filled := AtOpen(cfg, e, s);
    MarkedIs(cfg, filled.engine, s);
    var marked := AtMark(cfg, filled.engine, s);
    CloseIs(cfg, warmup, marked.engine, i);
    assert OpenSays(cfg, e, s, filled) && MarkedSays(cfg, filled.engine, s, marked);
  }
}
