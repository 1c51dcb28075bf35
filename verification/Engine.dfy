/** The session engine as a state machine: quantize/engine/backtest.py. One step is one market session: fills at the
    open, a mark at the close, then evaluation, planning and queueing at the same close. */
module Engine {
  import opened Closure
  import opened Collections
  import opened Diagnostics
  import opened Documents
  import opened Evaluator
  import opened Fills
  import opened FillLoops
  import opened Market
  import opened Portfolio
  import Reconciliation
  import Resolution
  import opened Schedule
  import opened StrategyEvaluation
  import Preflight
  import opened Warmup

  /** What a run is given. Definitions come from a component catalog, keyed by their identity. */
  datatype Config = Config(document: Document, schedule: Schedule, catalog: Catalog, components: Definitions, data: DataSet,
                           first: Option<Date>, last: Option<Date>, collectTrace: bool)
  {
    function Calendar(): Calendar { data.calendar }
    function Bps(): real { document.bps }
    function Fires(): seq<Date> { Firing(schedule, DatesOf(data.calendar)) }
  }

  /** Callers supply a catalog and a structurally resolvable document. */
  ghost predicate ConfigOk(cfg: Config) {
    KeyedByIdentity(cfg.components) && Resolution.Resolvable(cfg.document)
  }

  function DatesOf(calendar: seq<MarketSession>): (r: seq<Date>)
    ensures |r| == |calendar| && forall i :: 0 <= i < |r| ==> r[i] == calendar[i].date
  {
    seq(|calendar|, i requires 0 <= i < |calendar| => calendar[i].date)
  }

  predicate InWindow(first: Option<Date>, last: Option<Date>, s: MarketSession) {
    (first.None? || s.date >= first.value) && (last.None? || s.date <= last.value)
  }

  /** `run_window`: the contiguous session sequence of the run. */
  function RunWindow(calendar: seq<MarketSession>, first: Option<Date>, last: Option<Date>): (r: seq<MarketSession>)
    ensures forall s :: s in r <==> s in calendar && InWindow(first, last, s)
  {
    if calendar == [] then []
    else
      var n := |calendar| - 1;
      assert forall s :: s in calendar <==> s in calendar[..n] || s == calendar[n];
      RunWindow(calendar[..n], first, last) + if InWindow(first, last, calendar[n]) then [calendar[n]] else []
  }

  /** How many sessions of the calendar have closed by this date's close. */
  function VisibleSessions(calendar: seq<MarketSession>, date: Date): nat {
    if calendar == [] then 0
    else if calendar[|calendar| - 1].date <= date then |calendar|
    else VisibleSessions(calendar[..|calendar| - 1], date)
  }

  /* ---- records ---- */

  datatype NoteCode = WarmupNotSatisfied | NoNextSession | FillOutsideWindow

  datatype EngineEvent =
    | OrdersFilled(session: Date, fills: seq<Fill>)
    | StateTransition(session: Date, before: Holdings, after: Holdings)
    | Noted(session: Date, code: NoteCode)
    | OrdersProposed(session: Date, portfolioValue: real, targetCash: real, projectedCash: real, orders: seq<RawOrder>,
                     omitted: seq<Reconciliation.AssetPlan>)

  datatype TraceEvent = FromNode(at: Instant, event: NodeEvent) | FromEngine(at: Instant, payload: EngineEvent)

  datatype StaleMark = StaleMark(session: Date, asset: Asset, mark: Date)
  datatype FillEvent = FillEvent(session: Date, at: Instant, fill: Fill)
  datatype SessionNote = SessionNote(session: Date, code: NoteCode)
  datatype EvaluationRecord = EvaluationRecord(session: Date, at: Instant, weights: Weights, plan: Reconciliation.Outcome,
                                               fillSession: Date, fillAt: Instant)
  datatype Pending = Pending(orders: seq<Order>, session: Date)

  /** Everything a run accumulates, and the memo its evaluations share, if it has one. */
  datatype EngineState = EngineState(state: PortfolioState, pending: Option<Pending>, valuations: seq<(Date, real)>, staleMarks: seq<StaleMark>,
                                     evaluations: seq<EvaluationRecord>, fills: seq<FillEvent>, notes: seq<SessionNote>,
                                     trace: seq<TraceEvent>, memo: Option<Memo>)
  {
    /** The same state in a run without a memo. */
    function Plain(): EngineState { this.(memo := None) }
  }

  /** A run starts with an empty memo. */
  function Initial(state: PortfolioState): EngineState {
    EngineState(state, None, [], [], [], [], [], [], Some(map[]))
  }

  /** Advanced, or ended by a terminal failure. */
  datatype StepResult = StepResult(engine: EngineState, failure: Option<Report>)

  /* ---- 1. the open ---- */

  function Traced(cfg: Config, e: EngineState, at: Instant, payload: EngineEvent): EngineState {
    if cfg.collectTrace then e.(trace := e.trace + [FromEngine(at, payload)]) else e
  }

  function FillEvents(s: MarketSession, fills: seq<Fill>): seq<FillEvent> {
    seq(|fills|, i requires 0 <= i < |fills| => FillEvent(s.date, s.openAt, fills[i]))
  }

  /** Whether orders queued earlier are due at this session. */
  predicate Due(e: EngineState, s: MarketSession) {
    e.pending.Some? && e.pending.value.session == s.date
  }

  function AtOpen(cfg: Config, e: EngineState, s: MarketSession): StepResult {
    if !Due(e, s) then StepResult(e, None)
    else
      AsOfOpensPositive(cfg.data, s.openAt);
      AfterFills(cfg, e, s, ApplyOrders(e.state, e.pending.value.orders, AsOf(cfg.data, s.openAt), s.date, cfg.Bps()))
  }

  function AfterFills(cfg: Config, e: EngineState, s: MarketSession, result: FillResult): StepResult {
    match result
    case Rejected(diagnostics) => StepResult(e, Some(diagnostics))
    case Applied(after, fills) =>
      var filled := Traced(cfg, e, s.openAt, OrdersFilled(s.date, fills));
      var moved := Traced(cfg, filled, s.openAt, StateTransition(s.date, e.state, after));
      StepResult(moved.(state := after, fills := e.fills + FillEvents(s, fills), pending := None), None)
  }

  /* ---- 2. the mark ---- */

  datatype Mark = Unpriced(asset: Asset) | Marked(value: real, stale: seq<StaleMark>)

  /** Holdings at their latest visible closes, in asset order, up to the first asset without one. */
  function MarkUpTo(state: PortfolioState, view: DataView, date: Date, assets: seq<Asset>): Mark
    requires forall a :: a in assets ==> a in state.positions
  {
    if assets == [] then Marked(state.cash, [])
    else
      var n := |assets| - 1;
      var asset := assets[n];
      match MarkUpTo(state, view, date, assets[..n])
      case Unpriced(a) => Unpriced(a)
      case Marked(value, stale) =>
        match view.LatestClose(asset)
        case None => Unpriced(asset)
        case Some(p) => Marked(value + Times(state.positions[asset], p.value),
                               stale + if p.date != date then [StaleMark(date, asset, p.date)] else [])
  }

  function MarkToMarket(state: PortfolioState, view: DataView, date: Date): Mark {
    MarkUpTo(state, view, date, Sorted(state.positions.Keys))
  }

  function AtMark(cfg: Config, e: EngineState, s: MarketSession): StepResult {
    match MarkToMarket(e.state, AsOf(cfg.data, s.closeAt), s.date)
    case Unpriced(asset) => StepResult(e, Some(multiset{Fault(MissingValuationPrice, asset)}))
    case Marked(value, stale) => StepResult(e.(valuations := e.valuations + [(s.date, value)], staleMarks := e.staleMarks + stale), None)
  }

  /* ---- 3. evaluation, planning, queueing ---- */

  datatype Gate = Quiet | Declined(code: NoteCode) | Open(next: MarketSession)

  /** Whether to evaluate at this close, and where the orders would fill. */
  function GateAt(cfg: Config, warmup: int, s: MarketSession): Gate {
    if s.date !in cfg.Fires() then Quiet
    else if VisibleSessions(cfg.Calendar(), s.date) <= warmup then Declined(WarmupNotSatisfied)
    else
      match NextSessionAfter(cfg.Calendar(), s.date)
      case None => Declined(NoNextSession)
      case Some(next) => if cfg.last.Some? && next.date > cfg.last.value then Declined(FillOutsideWindow) else Open(next)
  }

  function NodeTrace(at: Instant, events: seq<NodeEvent>): seq<TraceEvent> {
    seq(|events|, i requires 0 <= i < |events| => FromNode(at, events[i]))
  }

  /** Closes of exactly this session, for the assets held or targeted. */
  function ClosesAt(view: DataView, date: Date, assets: set<Asset>): (m: map<Asset, real>)
    ensures forall a :: Get(m, a) == if a in assets then view.SessionClose(a, date) else None
  {
    map a | a in assets && view.SessionClose(a, date).Some? :: view.SessionClose(a, date).value
  }

  function Omitted(plans: seq<Reconciliation.AssetPlan>): seq<Reconciliation.AssetPlan> {
    if plans == [] then []
    else
      var last := plans[|plans| - 1];
      Omitted(plans[..|plans| - 1]) + if last.action == Reconciliation.Dust || last.action == Reconciliation.Hold then [last] else []
  }

  function RawOrders(orders: seq<Order>): seq<RawOrder> {
    orders
  }

  /** The targets of an evaluation turned into a plan and, if it has orders, queued for the next session. */
  function AfterTargets(cfg: Config, e: EngineState, s: MarketSession, next: MarketSession, targets: Weights): StepResult {
    var view := AsOf(cfg.data, s.closeAt);
    var plan := Reconciliation.Reconcile(e.state, targets, ClosesAt(view, s.date, Reconciliation.PlanningSet(e.state, targets)));
    var recorded := e.(evaluations := e.evaluations + [EvaluationRecord(s.date, s.closeAt, targets, plan, next.date, next.openAt)]);
    match plan
    case Refused(diagnostics) => StepResult(recorded, Some(multiset{Fault(ReconciliationFailed, s.date)} + diagnostics))
    case Planned(orders, pv, targetCash, projectedCash, plans) =>
      var proposed := Traced(cfg, recorded, s.closeAt,
                             OrdersProposed(s.date, pv, targetCash, projectedCash, RawOrders(orders), Omitted(plans)));
      StepResult(if orders == [] then proposed else proposed.(pending := Some(Pending(orders, next.date))), None)
  }

  function AfterOutcome(cfg: Config, e: EngineState, s: MarketSession, next: MarketSession, outcome: Outcome): StepResult {
    var left := e.(memo := if e.memo.Some? then Some(outcome.memo) else None);
    var traced := if cfg.collectTrace then left.(trace := e.trace + NodeTrace(s.closeAt, outcome.trace)) else left;
    if !outcome.Ok() then StepResult(traced, Some(multiset{Fault(EvaluationFailed, s.date)} + multiset(outcome.diagnostics)))
    else AfterTargets(cfg, traced, s, next, outcome.targets.value)
  }

  ghost function AtClose(cfg: Config, warmup: int, e: EngineState, s: MarketSession): StepResult
    requires ConfigOk(cfg)
  {
    match GateAt(cfg, warmup, s)
    case Quiet => StepResult(e, None)
    case Declined(code) => StepResult(Traced(cfg, e.(notes := e.notes + [SessionNote(s.date, code)]), s.closeAt, Noted(s.date, code)), None)
    case Open(next) =>
      AfterOutcome(cfg, e, s, next, Evaluation(cfg.catalog, cfg.document, cfg.components, Context(AsOf(cfg.data, s.closeAt), e.memo)))
  }

  /* ---- a session, a run ---- */


  ghost function Step(cfg: Config, warmup: int, e: EngineState, s: MarketSession): StepResult
    requires ConfigOk(cfg)
  {
    var filled := AtOpen(cfg, e, s);
    if filled.failure.Some? then filled
    else
      var marked := AtMark(cfg, filled.engine, s);
      if marked.failure.Some? then marked else AtClose(cfg, warmup, marked.engine, s)
  }

  /** The sessions in order, up to the first terminal failure. */
  ghost function Steps(cfg: Config, warmup: int, e: EngineState, sessions: seq<MarketSession>): StepResult
    requires ConfigOk(cfg)
  {
    if sessions == [] then StepResult(e, None)
    else
      var n := |sessions| - 1;
      var before := Steps(cfg, warmup, e, sessions[..n]);
      if before.failure.Some? then before else Step(cfg, warmup, before.engine, sessions[n])
  }

  ghost function Window(cfg: Config): seq<MarketSession> {
    RunWindow(cfg.Calendar(), cfg.first, cfg.last)
  }

  /** Components must resolve and the cost model must be supported before any session runs. */
  ghost function EntryCheck(cfg: Config): Option<Report>
    requires ConfigOk(cfg)
  {
    var resolution := Resolution.Resolve(cfg.catalog, cfg.document, cfg.components);
    if !resolution.Ok() then Some(multiset(resolution.faults))
    else if !CostsSupported(cfg.Bps()) then Some(multiset{Fault(InvalidTransactionCosts, 0)})
    else None
  }

  /** The warm-up of the resolved strategy; zero until the components resolve. */
  ghost function WarmupOf(cfg: Config): int
    requires ConfigOk(cfg)
  {
    var resolution := Resolution.Resolve(cfg.catalog, cfg.document, cfg.components);
    if resolution.Ok() then WarmupTotal(cfg.catalog, Preflight.RootOf(cfg.document, resolution.instances)) else 0
  }

  /* ---- results ---- */

  datatype BacktestResult = BacktestResult(ok: bool, first: Option<Date>, last: Option<Date>, valuations: seq<(Date, real)>,
                                           staleMarks: seq<StaleMark>, evaluations: seq<EvaluationRecord>, fills: seq<FillEvent>,
                                           finalState: PortfolioState, notes: seq<SessionNote>, diagnostics: Report, trace: seq<TraceEvent>)

  function Finish(window: seq<MarketSession>, e: EngineState, failure: Option<Report>): BacktestResult {
    BacktestResult(failure.None?, if window == [] then None else Some(window[0].date),
                   if window == [] then None else Some(window[|window| - 1].date),
                   e.valuations, e.staleMarks, e.evaluations, e.fills, e.state, e.notes,
                   if failure.Some? then failure.value else multiset{}, e.trace)
  }

  /** `run_backtest`. */
  ghost function Backtest(cfg: Config, initial: PortfolioState): BacktestResult
    requires ConfigOk(cfg)
  {
    var refused := EntryCheck(cfg);
    if refused.Some? then Finish(Window(cfg), Initial(initial), refused)
    else
      var r := Steps(cfg, WarmupOf(cfg), Initial(initial), Window(cfg));
      Finish(Window(cfg), r.engine, r.failure)
  }
}
