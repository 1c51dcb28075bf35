/** The stepwise engine object and the one-shot driver: `SessionEngine` and `run_backtest` of
    quantize/engine/backtest.py. Prices are read through the run's cursor; evaluations share the run's memo. */
module Sessions {
  import opened Closure
  import opened Collections
  import opened Cursor
  import opened Diagnostics
  import opened Documents
  import opened Engine
  import opened Evaluator
  import opened Fills
  import opened FillLoops
  import opened Market
  import opened Memos
  import opened Portfolio
  import Preflight
  import Reconciliation
  import Resolution
  import opened Schedule
  import opened StrategyEvaluation
  import opened Warmup

  /** `run_window`, as the comprehension it is. */
  method SelectWindow(calendar: seq<MarketSession>, first: Option<Date>, last: Option<Date>) returns (window: seq<MarketSession>)
    ensures window == RunWindow(calendar, first, last)
  {
    window := [];
    for i := 0 to |calendar|
      invariant window == RunWindow(calendar[..i], first, last)
    {
      assert calendar[..i + 1][..i] == calendar[..i];
      if InWindow(first, last, calendar[i]) {
        window := window + [calendar[i]];
      }
    }
    assert calendar[..|calendar|] == calendar;
  }

  lemma MarkSnoc(state: PortfolioState, view: DataView, date: Date, assets: seq<Asset>, i: nat)
    requires i < |assets| && forall a :: a in assets ==> a in state.positions
    ensures assets[i] in state.positions
    ensures MarkUpTo(state, view, date, assets[..i + 1]) ==
      match MarkUpTo(state, view, date, assets[..i])
      case Unpriced(a) => Unpriced(a)
      case Marked(value, stale) =>
        match view.LatestClose(assets[i])
        case None => Unpriced(assets[i])
        case Some(p) => Marked(value + Times(state.positions[assets[i]], p.value),
                               stale + if p.date != date then [StaleMark(date, assets[i], p.date)] else [])
    ensures MarkUpTo(state, view, date, assets[..i + 1]).Unpriced? ==> MarkUpTo(state, view, date, assets) == MarkUpTo(state, view, date, assets[..i + 1])
    decreases |assets| - i
  {
    hide Times;
    assert assets[..i + 1][..i] == assets[..i];
    var asset := assets[i];
    assert asset in assets;
    if i + 1 == |assets| {
      assert assets[..i + 1] == assets;
    } else {
      MarkSnoc(state, view, date, assets, i + 1);
    }
  }

  /** `_mark_to_market`. */
  method MarkHoldings(state: PortfolioState, cursor: MarketDataCursor, instant: Instant, date: Date) returns (r: Mark)
    requires cursor.Valid()
    modifies cursor
    ensures cursor.Valid()
    ensures r == MarkToMarket(state, AsOf(cursor.dataset, instant), date)
  {
    hide MarkUpTo, Times, AsOf, MarketDataCursor.Valid;
    ghost var view := AsOf(cursor.dataset, instant);
    var assets := Sorted(state.positions.Keys);
    var value, stale := state.cash, [];
    NothingMarked(state, view, date, assets);
    for i := 0 to |assets|
      invariant cursor.Valid()
      invariant MarkUpTo(state, view, date, assets[..i]) == Marked(value, stale)
    {
      MarkSnoc(state, view, date, assets, i);
      var latest := cursor.LatestClose(assets[i], instant);
      if latest.None? {
        return Unpriced(assets[i]);
      }
      value := value + Times(state.positions[assets[i]], latest.value.value);
      if latest.value.date != date {
        stale := stale + [StaleMark(date, assets[i], latest.value.date)];
      }
    }
    assert assets[..|assets|] == assets;
    return Marked(value, stale);
  }

  lemma NothingMarked(state: PortfolioState, view: DataView, date: Date, assets: seq<Asset>)
    requires forall a :: a in assets ==> a in state.positions
    ensures MarkUpTo(state, view, date, assets[..0]) == Marked(state.cash, [])
  {
  }

  /** `_closes_at`. */
  method ReadCloses(cursor: MarketDataCursor, instant: Instant, date: Date, assets: set<Asset>) returns (prices: map<Asset, real>)
    requires cursor.Valid()
    modifies cursor
    ensures cursor.Valid()
    ensures prices == ClosesAt(AsOf(cursor.dataset, instant), date, assets)
  {
    hide AsOf, ClosesAt, MarketDataCursor.Valid;
    ghost var view := AsOf(cursor.dataset, instant);
    var names := Sorted(assets);
    prices := map[];
    for i := 0 to |names|
      invariant cursor.Valid()
      invariant forall a :: Get(prices, a) == if a in names[..i] then view.SessionClose(a, date) else None
    {
      assert names[..i + 1] == names[..i] + [names[i]];
      var price := cursor.SessionClose(names[i], date, instant);
      if price.Some? {
        prices := prices[names[i] := price.value];
      }
    }
    assert names[..|names|] == names;
    forall a ensures Get(prices, a) == Get(ClosesAt(view, date, assets), a) {
      assert a in names <==> a in assets;
    }
    SameMaps(prices, ClosesAt(view, date, assets));
  }

  /** The mode-agnostic engine core. */
  class SessionEngine {
    const cfg: Config
    const sessions: seq<MarketSession>
    const fires: seq<Date>
    const cursor: MarketDataCursor
    const memo: EvaluationMemo
    var warmupTotal: int
    var valuations: seq<(Date, real)>
    var staleMarks: seq<StaleMark>
    var evaluations: seq<EvaluationRecord>
    var allFills: seq<FillEvent>
    var notes: seq<SessionNote>
    var trace: seq<TraceEvent>
    var state: PortfolioState
    var pending: Option<Pending>

    ghost predicate Valid()
      reads this, cursor
    {
      && ConfigOk(cfg)
      && cursor.Valid() && cursor.dataset == cfg.data
      && sessions == Window(cfg) && fires == cfg.Fires()
    }

    ghost function State(): EngineState
      reads this, memo
    {
      EngineState(state, pending, valuations, staleMarks, evaluations, allFills, notes, trace, Some(memo.slots))
    }

    constructor (cfg: Config, initial: PortfolioState)
      requires ConfigOk(cfg)
      ensures Valid() && this.cfg == cfg && State() == Initial(initial) && warmupTotal == 0
      ensures fresh(cursor) && fresh(memo) && memo.highWater == None
    {
      this.cfg := cfg;
      var window := SelectWindow(cfg.Calendar(), cfg.first, cfg.last);
      var firing := ScheduledSessions(cfg.schedule, DatesOf(cfg.data.calendar));
      sessions, fires := window, firing;
      cursor := new MarketDataCursor(cfg.data);
      memo := new EvaluationMemo();
      warmupTotal := 0;
      valuations, staleMarks, evaluations, allFills, notes, trace := [], [], [], [], [], [];
      state, pending := initial, None;
    }

    /** Run-entry validation: nothing means ready. */
    method CheckEntry() returns (refused: Option<Report>)
      requires Valid()
      modifies this`warmupTotal
      ensures Valid() && State() == old(State())
      ensures refused == EntryCheck(cfg)
      ensures refused.None? ==> warmupTotal == WarmupOf(cfg)
    {
      hide Resolution.Resolve, Resolution.Resolvable, WarmupTotal;
      var resolution := Resolution.ResolveStrategyComponents(cfg.catalog, cfg.document, cfg.components);
      if !resolution.Ok() {
        return Some(multiset(resolution.faults));
      }
      var _, most := ResolveWarmup(cfg.catalog, Preflight.RootOf(cfg.document, resolution.instances));
      warmupTotal := most;
      if !CostsSupported(cfg.Bps()) {
        return Some(multiset{Fault(InvalidTransactionCosts, 0)});
      }
      return None;
    }

    method Emit(at: Instant, payload: EngineEvent)
      modifies this`trace
      ensures State() == Traced(cfg, old(State()), at, payload)
    {
      if cfg.collectTrace {
        trace := trace + [FromEngine(at, payload)];
      }
    }

    method Note(s: MarketSession, code: NoteCode)
      modifies this`trace, this`notes
      ensures State() == Traced(cfg, old(State()).(notes := old(notes) + [SessionNote(s.date, code)]), s.closeAt, Noted(s.date, code))
    {
      notes := notes + [SessionNote(s.date, code)];
      Emit(s.closeAt, Noted(s.date, code));
    }

    method FillAtOpen(s: MarketSession) returns (failure: Option<Report>)
      requires Valid()
      modifies this`trace, this`state, this`allFills, this`pending, cursor
      ensures Valid()
      ensures StepResult(State(), failure) == AtOpen(cfg, old(State()), s)
    {
      hide ApplyOrders, AsOf, MarketDataCursor.Valid, ConfigOk, Window, Firing;
      if pending.None? || pending.value.session != s.date {
        return None;
      }
      AsOfOpensPositive(cfg.data, s.openAt);
      var result := ApplyOrdersAtOpen(state, pending.value.orders, cursor, s.date, s.openAt, cfg.Bps());
      if result.Rejected? {
        return Some(result.diagnostics);
      }
      Emit(s.openAt, OrdersFilled(s.date, result.fills));
      Emit(s.openAt, StateTransition(s.date, state, result.state));
      state := result.state;
      allFills := allFills + FillEvents(s, result.fills);
      pending := None;
      return None;
    }

    method MarkAtClose(s: MarketSession) returns (failure: Option<Report>)
      requires Valid()
      modifies this`valuations, this`staleMarks, cursor
      ensures Valid()
      ensures StepResult(State(), failure) == AtMark(cfg, old(State()), s)
    {
      hide AsOf, MarketDataCursor.Valid, ConfigOk, Window, Firing, MarkUpTo;
      var mark := MarkHoldings(state, cursor, s.closeAt, s.date);
      if mark.Unpriced? {
        return Some(multiset{Fault(MissingValuationPrice, mark.asset)});
      }
      valuations := valuations + [(s.date, mark.value)];
      staleMarks := staleMarks + mark.stale;
      return None;
    }

    /** The memo accepts the instant, provided sessions are fed in order. */
    method EvaluateAtClose(s: MarketSession, next: MarketSession) returns (failure: Option<Report>)
      requires Valid()
      requires memo.highWater.Some? ==> memo.highWater.value <= s.closeAt
      modifies this`trace, this`evaluations, this`pending, cursor, memo
      ensures Valid() && memo.highWater == Some(s.closeAt)
      ensures StepResult(State(), failure)
           == AfterOutcome(cfg, old(State()), s, next,
                           Evaluation(cfg.catalog, cfg.document, cfg.components, Context(AsOf(cfg.data, s.closeAt), old(State()).memo)))
    {
      hide AsOf, MarketDataCursor.Valid, Window, Firing, Evaluation, Reconciliation.Reconcile, ClosesAt, KeyedByIdentity, Resolution.Resolvable, Omitted;
      var evaluated := EvaluateStrategy(cfg.catalog, cfg.document, cfg.components, cfg.data, s.closeAt, memo);
      var outcome := evaluated.value;
      if cfg.collectTrace {
        trace := trace + NodeTrace(s.closeAt, outcome.trace);
      }
      if !outcome.Ok() {
        return Some(multiset{Fault(EvaluationFailed, s.date)} + multiset(outcome.diagnostics));
      }
      var targets := outcome.targets.value;
      var prices := ReadCloses(cursor, s.closeAt, s.date, Reconciliation.PlanningSet(state, targets));
      var plan := Reconciliation.ReconcileOrders(state, targets, prices);
      evaluations := evaluations + [EvaluationRecord(s.date, s.closeAt, targets, plan, next.date, next.openAt)];
      if plan.Refused? {
        return Some(multiset{Fault(ReconciliationFailed, s.date)} + plan.diagnostics);
      }
      Emit(s.closeAt, OrdersProposed(s.date, plan.portfolioValue, plan.targetCash, plan.projectedCash, RawOrders(plan.orders), Omitted(plan.plans)));
      if plan.orders != [] {
        pending := Some(Pending(plan.orders, next.date));
      }
      return None;
    }

    method CloseSession(s: MarketSession) returns (failure: Option<Report>)
      requires Valid()
      requires memo.highWater.Some? ==> memo.highWater.value <= s.closeAt
      modifies this`trace, this`notes, this`evaluations, this`pending, cursor, memo
      ensures Valid() && (memo.highWater.Some? ==> memo.highWater.value <= s.closeAt)
      ensures StepResult(State(), failure) == AtClose(cfg, warmupTotal, old(State()), s)
    {
      hide AsOf, MarketDataCursor.Valid, Window, Firing, AfterOutcome, Evaluation, VisibleSessions, NextSessionAfter, Resolution.Resolvable, KeyedByIdentity;
      if s.date !in fires {
        return None;
      }
      if VisibleSessions(cfg.Calendar(), s.date) <= warmupTotal {
        Note(s, WarmupNotSatisfied);
        return None;
      }
      var next := NextSessionAfter(cfg.Calendar(), s.date);
      if next.None? {
        Note(s, NoNextSession);
        return None;
      }
      if cfg.last.Some? && next.value.date > cfg.last.value {
        Note(s, FillOutsideWindow);
        return None;
      }
      failure := EvaluateAtClose(s, next.value);
    }

    /** One session of the lifecycle. */
    method Step(s: MarketSession) returns (failure: Option<Report>)
      requires Valid()
      requires memo.highWater.Some? ==> memo.highWater.value <= s.closeAt
      modifies this, cursor, memo
      ensures Valid() && (memo.highWater.Some? ==> memo.highWater.value <= s.closeAt)
      ensures warmupTotal == old(warmupTotal)
      ensures StepResult(State(), failure) == Engine.Step(cfg, warmupTotal, old(State()), s)
    {
      hide AtOpen, AtMark, AtClose, MarketDataCursor.Valid, ConfigOk, Window, Firing;
      failure := FillAtOpen(s);
      if failure.Some? {
        return;
      }
      failure := MarkAtClose(s);
      if failure.Some? {
        return;
      }
      failure := CloseSession(s);
    }

    method Result(failure: Option<Report>) returns (r: BacktestResult)
      requires Valid()
      ensures r == Finish(Window(cfg), State(), failure)
    {
      hide Window, ConfigOk, MarketDataCursor.Valid, Firing;
      r := BacktestResult(failure.None?, if sessions == [] then None else Some(sessions[0].date),
                          if sessions == [] then None else Some(sessions[|sessions| - 1].date),
                          valuations, staleMarks, evaluations, allFills, state, notes,
                          if failure.Some? then failure.value else multiset{}, trace);
    }
  }

  /** Sessions come in order: an earlier one closes no later than the next one. */
  lemma {:induction false} WindowAscends(calendar: Calendar, first: Option<Date>, last: Option<Date>)
    ensures forall i, j :: 0 <= i < j < |RunWindow(calendar, first, last)| ==>
      RunWindow(calendar, first, last)[i].date < RunWindow(calendar, first, last)[j].date
      && RunWindow(calendar, first, last)[i].closeAt <= RunWindow(calendar, first, last)[j].openAt
    ensures forall i :: 0 <= i < |RunWindow(calendar, first, last)| ==>
      RunWindow(calendar, first, last)[i].openAt < RunWindow(calendar, first, last)[i].closeAt
  {
    if calendar != [] {
      var n := |calendar| - 1;
      var front: Calendar := calendar[..n];
      WindowAscends(front, first, last);
      var w := RunWindow(front, first, last);
      forall i | 0 <= i < |w| ensures w[i].date < calendar[n].date && w[i].closeAt <= calendar[n].openAt {
        assert w[i] in w;
        assert w[i] in front;
      }
    }
  }

  lemma StepsSnoc(cfg: Config, warmup: int, e: EngineState, sessions: seq<MarketSession>, i: nat)
    requires ConfigOk(cfg) && i < |sessions|
    ensures Steps(cfg, warmup, e, sessions[..i + 1]) == var before := Steps(cfg, warmup, e, sessions[..i]);
      if before.failure.Some? then before else Engine.Step(cfg, warmup, before.engine, sessions[i])
  {
    hide Engine.Step;
    assert sessions[..i + 1][..i] == sessions[..i];
  }

  /** A failed session ends the run. */
  lemma {:induction false} StepsStop(cfg: Config, warmup: int, e: EngineState, sessions: seq<MarketSession>, i: nat)
    requires ConfigOk(cfg) && i <= |sessions|
    requires Steps(cfg, warmup, e, sessions[..i]).failure.Some?
    ensures Steps(cfg, warmup, e, sessions) == Steps(cfg, warmup, e, sessions[..i])
    decreases |sessions| - i
  {
    hide Engine.Step;
    if i == |sessions| {
      assert sessions[..i] == sessions;
    } else {
      StepsSnoc(cfg, warmup, e, sessions, i);
      StepsStop(cfg, warmup, e, sessions, i + 1);
    }
  }

  /** `run_backtest`. */
  method RunBacktest(cfg: Config, initial: PortfolioState) returns (r: BacktestResult)
    requires ConfigOk(cfg)
    ensures r == Backtest(cfg, initial)
  {
    hide Engine.Step, Steps, Window, Firing, ConfigOk, EntryCheck, WarmupOf, Finish;
    var engine := new SessionEngine(cfg, initial);
    var failure := engine.CheckEntry();
    if failure.Some? {
      r := engine.Result(failure);
      return;
    }
    ghost var warmup := engine.warmupTotal;
    WindowIs(cfg);
    NoSteps(cfg, warmup, Initial(initial), engine.sessions);
    for i := 0 to |engine.sessions|
      invariant engine.Valid() && engine.cfg == cfg && engine.warmupTotal == warmup && fresh(engine.cursor) && fresh(engine.memo)
      invariant StepResult(engine.State(), None) == Steps(cfg, warmup, Initial(initial), engine.sessions[..i])
      invariant engine.memo.highWater.Some? ==> i > 0 && engine.memo.highWater.value <= engine.sessions[i - 1].closeAt
    {
      StepsSnoc(cfg, warmup, Initial(initial), engine.sessions, i);
      failure := engine.Step(engine.sessions[i]);
      if failure.Some? {
        StepsStop(cfg, warmup, Initial(initial), engine.sessions, i + 1);
        r := engine.Result(failure);
        return;
      }
    }
    assert engine.sessions[..|engine.sessions|] == engine.sessions;
    r := engine.Result(None);
  }

  lemma NoSteps(cfg: Config, warmup: int, e: EngineState, sessions: seq<MarketSession>)
    requires ConfigOk(cfg)
    ensures Steps(cfg, warmup, e, sessions[..0]) == StepResult(e, None)
  {
  }

  lemma WindowIs(cfg: Config)
    ensures forall i, j :: 0 <= i < j < |Window(cfg)| ==>
      Window(cfg)[i].date < Window(cfg)[j].date && Window(cfg)[i].closeAt <= Window(cfg)[j].openAt
    ensures forall i :: 0 <= i < |Window(cfg)| ==> Window(cfg)[i].openAt < Window(cfg)[i].closeAt
  {
    WindowAscends(cfg.Calendar(), cfg.first, cfg.last);
  }
}
