/** What a run reports: `run_backtest` and `SessionEngine.finish` of quantize/engine/backtest.py, `ForwardReplay.result` of
    quantize/engine/forward.py. */
module Results {
  import opened Closure
  import opened Collections
  import opened Diagnostics
  import opened Engine
  import opened Evaluator
  import opened Fills
  import opened FillLoops
  import opened Market
  import opened Marks
  import opened MemoRuns
  import opened Portfolio
  import Reconciliation
  import opened Replay
  import Resolution
  import opened RunTheorems
  import opened SessionRecords
  import opened Sessions
  import opened StrategyEvaluation

  /* ---- the sessions of a run ---- */

  ghost predicate InBounds(cfg: Config, s: MarketSession) {
    (cfg.first.Some? ==> cfg.first.value <= s.date) && (cfg.last.Some? ==> s.date <= cfg.last.value)
  }

  /** The window is the sessions of the calendar within the bounds, in order. */
  lemma WindowSays(cfg: Config)
    ensures forall s :: s in Window(cfg) <==> s in cfg.data.calendar && InBounds(cfg, s)
    ensures forall i, j :: 0 <= i < j < |Window(cfg)| ==> Window(cfg)[i].date < Window(cfg)[j].date
  {
    WindowIs(cfg);
  }

  /** The run after its first k sessions, or at the first of them that failed. */
  ghost function After(cfg: Config, initial: PortfolioState, k: nat): StepResult
    requires ConfigOk(cfg) && k <= |Window(cfg)|
  {
    Steps(cfg, WarmupOf(cfg), Initial(initial), Window(cfg)[..k])
  }

  /** A run begins with the given portfolio, an empty queue, no records and an empty memo. */
  lemma Begins(cfg: Config, initial: PortfolioState)
    requires ConfigOk(cfg)
    ensures After(cfg, initial, 0) == StepResult(EngineState(initial, None, [], [], [], [], [], [], Some(map[])), None)
  {
    hide Window, WarmupOf, ConfigOk, Steps;
    NoSteps(cfg, WarmupOf(cfg), Initial(initial), Window(cfg));
  }

  /** Which session of the calendar session k of the run is. */
  ghost predicate PlaceOf(cfg: Config, k: nat, i: nat) {
    k < |Window(cfg)| && i < |cfg.data.calendar| && cfg.data.calendar[i] == Window(cfg)[k]
  }

  lemma HasPlace(cfg: Config, k: nat) returns (i: nat)
    requires k < |Window(cfg)|
    ensures PlaceOf(cfg, k, i)
  {
    hide Window;
    WindowSays(cfg);
    assert Window(cfg)[k] in Window(cfg);
    i :| 0 <= i < |cfg.data.calendar| && cfg.data.calendar[i] == Window(cfg)[k];
  }

  /** Every session of a run goes on from where the previous one left off, as the session says; a failed one is the last. */
  lemma RunSays(cfg: Config, initial: PortfolioState, k: nat, i: nat)
    requires ConfigOk(cfg) && PlaceOf(cfg, k, i)
    ensures if After(cfg, initial, k).failure.Some? then After(cfg, initial, k + 1) == After(cfg, initial, k)
            else SessionSays(cfg, WarmupOf(cfg), After(cfg, initial, k).engine, i, After(cfg, initial, k + 1))
  {
    hide Window, Step, Steps, WarmupOf, ConfigOk, SessionSays;
    StepsSnoc(cfg, WarmupOf(cfg), Initial(initial), Window(cfg), k);
    StepIs(cfg, WarmupOf(cfg), After(cfg, initial, k).engine, i);
  }

  /* ---- records ---- */

  ghost predicate ValuedBy(cfg: Config, s: MarketSession, e: EngineState, r: EngineState) {
    exists value :: ValuedAt(cfg.data, s.closeAt, r.state, value) && r.valuations == e.valuations + [(s.date, value)]
  }

  ghost predicate NotedBy(cfg: Config, warmup: int, i: nat, e: EngineState, r: EngineState)
    requires i < |cfg.data.calendar|
  {
    && (forall code :: NoteDue(cfg, warmup, i, code) ==> r.notes == e.notes + [SessionNote(cfg.data.calendar[i].date, code)])
    && ((forall code :: !NoteDue(cfg, warmup, i, code)) ==> r.notes == e.notes)
  }

  ghost predicate EvaluatedBy(cfg: Config, warmup: int, i: nat, e: EngineState, r: EngineState)
    requires i < |cfg.data.calendar|
  {
    if EvaluationDue(cfg, warmup, i)
    then exists record :: r.evaluations == e.evaluations + [record]
           && RecordSays(cfg, r.state, cfg.data.calendar[i], cfg.data.calendar[i + 1], record.weights, record)
    else r.evaluations == e.evaluations
  }

  /** A session that advances values the portfolio once, notes what is due and records the evaluation that is due. */
  lemma SessionAppends(cfg: Config, warmup: int, e: EngineState, i: nat, r: StepResult)
    requires ConfigOk(cfg) && i < |cfg.data.calendar| && SessionSays(cfg, warmup, e, i, r) && r.failure.None?
    ensures ValuedBy(cfg, cfg.data.calendar[i], e, r.engine)
    ensures NotedBy(cfg, warmup, i, e, r.engine)
    ensures EvaluatedBy(cfg, warmup, i, e, r.engine)
  {
    hide ConfigOk, OpenSays, MarkedSays, CloseSays, NotedBy, EvaluatedBy, ValuedBy;
    var s := cfg.data.calendar[i];
    var filled, marked :| OpenSays(cfg, e, s, filled)
      && if filled.failure.Some? then r == filled
         else MarkedSays(cfg, filled.engine, s, marked) && if marked.failure.Some? then r == marked else CloseSays(cfg, warmup, marked.engine, i, r);
    OpenAppends(cfg, e, s, filled);
    MarkAppends(cfg, filled.engine, s, marked);
    CloseAppends(cfg, warmup, marked.engine, i, r);
    Appended(cfg, warmup, i, e, filled.engine, marked.engine, r.engine);
  }

  lemma OpenAppends(cfg: Config, e: EngineState, s: MarketSession, r: StepResult)
    requires OpenSays(cfg, e, s, r)
    ensures r.engine.valuations == e.valuations && r.engine.notes == e.notes && r.engine.evaluations == e.evaluations
  {
    hide ApplyOrders, AsOf, PositiveOpens, Emitted;
  }

  lemma MarkAppends(cfg: Config, e: EngineState, s: MarketSession, r: StepResult)
    requires MarkedSays(cfg, e, s, r) && r.failure.None?
    ensures ValuedBy(cfg, s, e, r.engine) && r.engine.notes == e.notes && r.engine.evaluations == e.evaluations
  {
    hide ValuedAt, StaleAt;
  }

  lemma CloseAppends(cfg: Config, warmup: int, e: EngineState, i: nat, r: StepResult)
    requires ConfigOk(cfg) && i < |cfg.data.calendar| && CloseSays(cfg, warmup, e, i, r) && r.failure.None?
    ensures r.engine.valuations == e.valuations && r.engine.state == e.state
    ensures NotedBy(cfg, warmup, i, e, r.engine) && EvaluatedBy(cfg, warmup, i, e, r.engine)
  {
    hide ConfigOk, Evaluation, AsOf, EvaluatedSays, Emitted, NoteDue, FiresAt, PastBound, RecordSays;
    var s := cfg.data.calendar[i];
    if EvaluationDue(cfg, warmup, i) {
      EvaluationAppends(cfg, e, s, cfg.data.calendar[i + 1], r);
      NothingNoted(cfg, warmup, i);
    }
  }

  lemma NothingNoted(cfg: Config, warmup: int, i: nat)
    requires i < |cfg.data.calendar| && EvaluationDue(cfg, warmup, i)
    ensures forall code :: !NoteDue(cfg, warmup, i, code)
  {
  }

  lemma EvaluationAppends(cfg: Config, e: EngineState, s: MarketSession, next: MarketSession, r: StepResult)
    requires ConfigOk(cfg) && EvaluatedSays(cfg, e, s, next, r) && r.failure.None?
    ensures r.engine.valuations == e.valuations && r.engine.state == e.state && r.engine.notes == e.notes
    ensures exists record :: r.engine.evaluations == e.evaluations + [record] && RecordSays(cfg, r.engine.state, s, next, record.weights, record)
  {
    hide KeyedByIdentity, Resolution.Resolvable, Evaluation, AsOf, NodesTold, RecordSays, PlannedSays;
    var outcome := Evaluation(cfg.catalog, cfg.document, cfg.components, Context(AsOf(cfg.data, s.closeAt), e.memo));
    var told :| NodesTold(cfg, s.closeAt, outcome.trace, told)
      && if outcome.targets.None?
         then r == StepResult(EvaluatedState(e, outcome, told), Some(multiset{Fault(EvaluationFailed, s.date)} + multiset(outcome.diagnostics)))
         else PlannedSays(cfg, EvaluatedState(e, outcome, told), s, next, outcome.targets.value, r);
    PlanAppends(cfg, EvaluatedState(e, outcome, told), s, next, outcome.targets.value, r);
  }

  lemma PlanAppends(cfg: Config, e: EngineState, s: MarketSession, next: MarketSession, targets: Weights, r: StepResult)
    requires PlannedSays(cfg, e, s, next, targets, r) && r.failure.None?
    ensures r.engine.valuations == e.valuations && r.engine.state == e.state && r.engine.notes == e.notes
    ensures exists record :: r.engine.evaluations == e.evaluations + [record] && RecordSays(cfg, r.engine.state, s, next, record.weights, record)
  {
    hide RecordSays, Emitted, Idle;
    var record :| RecordSays(cfg, e.state, s, next, targets, record) && PlanQueuedSays(cfg, e, s, next, record, r);
    RecordWeights(cfg, e.state, s, next, targets, record);
  }

  lemma RecordWeights(cfg: Config, state: PortfolioState, s: MarketSession, next: MarketSession, targets: Weights, record: EvaluationRecord)
    requires RecordSays(cfg, state, s, next, targets, record)
    ensures record.weights == targets
  {
    hide PlanPrices;
  }

  lemma Appended(cfg: Config, warmup: int, i: nat, e: EngineState, f: EngineState, m: EngineState, r: EngineState)
    requires i < |cfg.data.calendar| && f.valuations == e.valuations && f.notes == m.notes == e.notes && f.evaluations == m.evaluations == e.evaluations
    requires r.valuations == m.valuations && r.state == m.state
    requires ValuedBy(cfg, cfg.data.calendar[i], f, m) && NotedBy(cfg, warmup, i, m, r) && EvaluatedBy(cfg, warmup, i, m, r)
    ensures ValuedBy(cfg, cfg.data.calendar[i], e, r) && NotedBy(cfg, warmup, i, e, r) && EvaluatedBy(cfg, warmup, i, e, r)
  {
    hide ValuedAt, NoteDue, EvaluationDue, RecordSays;
  }

  /* ---- a run that has advanced ---- */

  lemma Advanced(cfg: Config, initial: PortfolioState, k: nat) returns (i: nat)
    requires ConfigOk(cfg) && k < |Window(cfg)| && After(cfg, initial, k + 1).failure.None?
    ensures After(cfg, initial, k).failure.None? && PlaceOf(cfg, k, i)
    ensures ValuedBy(cfg, Window(cfg)[k], After(cfg, initial, k).engine, After(cfg, initial, k + 1).engine)
    ensures NotedBy(cfg, WarmupOf(cfg), i, After(cfg, initial, k).engine, After(cfg, initial, k + 1).engine)
    ensures EvaluatedBy(cfg, WarmupOf(cfg), i, After(cfg, initial, k).engine, After(cfg, initial, k + 1).engine)
  {
    hide Window, WarmupOf, ConfigOk, After, SessionSays, ValuedBy, NotedBy, EvaluatedBy;
    i := HasPlace(cfg, k);
    RunSays(cfg, initial, k, i);
    SessionAppends(cfg, WarmupOf(cfg), After(cfg, initial, k).engine, i, After(cfg, initial, k + 1));
  }

  /** Valuation j is dated to session j, and is the worth of the portfolio that session left, at its close. */
  ghost predicate ValuationOf(cfg: Config, initial: PortfolioState, j: nat, v: (Date, real))
    requires ConfigOk(cfg)
  {
    j < |Window(cfg)| && v.0 == Window(cfg)[j].date
    && ValuedAt(cfg.data, Window(cfg)[j].closeAt, After(cfg, initial, j + 1).engine.state, v.1)
  }

  lemma {:induction false} ValuationsSay(cfg: Config, initial: PortfolioState, k: nat)
    requires ConfigOk(cfg) && k <= |Window(cfg)| && After(cfg, initial, k).failure.None?
    ensures var r := After(cfg, initial, k).engine.valuations;
      |r| == k && forall j :: 0 <= j < k ==> ValuationOf(cfg, initial, j, r[j])
  {
    hide Window, WarmupOf, ConfigOk, After, ValuedAt, NotedBy, EvaluatedBy;
    if k == 0 {
      Begins(cfg, initial);
    } else {
      var i := Advanced(cfg, initial, k - 1);
      ValuationsSay(cfg, initial, k - 1);
      var e, r := After(cfg, initial, k - 1).engine, After(cfg, initial, k).engine;
      var s := Window(cfg)[k - 1];
      var value :| ValuedAt(cfg.data, s.closeAt, r.state, value) && r.valuations == e.valuations + [(s.date, value)];
      assert ValuationOf(cfg, initial, k - 1, (s.date, value));
    }
  }

  /** The note is due at one of the first k sessions, and dated to it. */
  ghost predicate NoteOf(cfg: Config, k: nat, n: SessionNote)
    requires ConfigOk(cfg)
  {
    exists j: nat, i: nat :: j < k && PlaceOf(cfg, j, i) && n.session == Window(cfg)[j].date && NoteDue(cfg, WarmupOf(cfg), i, n.code)
  }

  /** The notes of a run are exactly the due ones, in order. */
  lemma {:induction false} NotesSay(cfg: Config, initial: PortfolioState, k: nat)
    requires ConfigOk(cfg) && k <= |Window(cfg)| && After(cfg, initial, k).failure.None?
    ensures var r := After(cfg, initial, k).engine.notes;
      && (forall n :: n in r <==> NoteOf(cfg, k, n))
      && (forall a, b :: 0 <= a < b < |r| ==> r[a].session < r[b].session)
  {
    hide Window, WarmupOf, ConfigOk, After, NoteDue, ValuedBy, EvaluatedBy;
    if k == 0 {
      Begins(cfg, initial);
    } else {
      var i := Advanced(cfg, initial, k - 1);
      NotesSay(cfg, initial, k - 1);
      forall n ensures NoteOf(cfg, k, n) <==>
          NoteOf(cfg, k - 1, n) || (n.session == Window(cfg)[k - 1].date && NoteDue(cfg, WarmupOf(cfg), i, n.code))
      {
        NoteSnoc(cfg, k - 1, i, n);
      }
      var e, r := After(cfg, initial, k - 1).engine, After(cfg, initial, k).engine;
      forall a | 0 <= a < |e.notes| ensures e.notes[a].session < Window(cfg)[k - 1].date {
        EarlierNote(cfg, k - 1, e.notes[a]);
      }
      if code :| NoteDue(cfg, WarmupOf(cfg), i, code) {
        assert r.notes == e.notes + [SessionNote(cfg.data.calendar[i].date, code)];
        forall other | NoteDue(cfg, WarmupOf(cfg), i, other) ensures other == code {
          OneNote(cfg, WarmupOf(cfg), i, code, other);
        }
      }
    }
  }

  lemma OneNote(cfg: Config, warmup: int, i: nat, code: NoteCode, other: NoteCode)
    requires i < |cfg.data.calendar| && NoteDue(cfg, warmup, i, code) && NoteDue(cfg, warmup, i, other)
    ensures code == other
  {
  }

  lemma EarlierNote(cfg: Config, k: nat, n: SessionNote)
    requires ConfigOk(cfg) && k < |Window(cfg)| && NoteOf(cfg, k, n)
    ensures n.session < Window(cfg)[k].date
  {
    hide Window, WarmupOf, ConfigOk, NoteDue;
    WindowSays(cfg);
  }

  lemma NoteSnoc(cfg: Config, k: nat, i: nat, n: SessionNote)
    requires ConfigOk(cfg) && PlaceOf(cfg, k, i)
    ensures NoteOf(cfg, k + 1, n) <==> NoteOf(cfg, k, n) || (n.session == Window(cfg)[k].date && NoteDue(cfg, WarmupOf(cfg), i, n.code))
  {
    hide Window, WarmupOf, ConfigOk, NoteDue;
    if NoteOf(cfg, k + 1, n) && !NoteOf(cfg, k, n) {
      var j: nat, x: nat :| j < k + 1 && PlaceOf(cfg, j, x) && n.session == Window(cfg)[j].date && NoteDue(cfg, WarmupOf(cfg), x, n.code);
      assert j == k;
      assert x == i;
    }
  }

  /** The record of the evaluation that was due at session j, for the portfolio that session left. */
  ghost predicate RecordOf(cfg: Config, initial: PortfolioState, j: nat, record: EvaluationRecord)
    requires ConfigOk(cfg)
  {
    j < |Window(cfg)| && RecordFor(cfg, WarmupOf(cfg), After(cfg, initial, j + 1).engine.state, j, record)
  }

  ghost predicate RecordFor(cfg: Config, warmup: int, state: PortfolioState, j: nat, record: EvaluationRecord) {
    exists i: nat :: PlaceOf(cfg, j, i) && EvaluationDue(cfg, warmup, i)
      && RecordSays(cfg, state, cfg.data.calendar[i], cfg.data.calendar[i + 1], record.weights, record)
  }

  ghost predicate DueAt(cfg: Config, j: nat)
    requires ConfigOk(cfg)
  {
    exists i: nat :: PlaceOf(cfg, j, i) && EvaluationDue(cfg, WarmupOf(cfg), i)
  }

  /** The evaluations of a run are those that were due, one each, in order. */
  lemma {:induction false} EvaluationsSay(cfg: Config, initial: PortfolioState, k: nat)
    requires ConfigOk(cfg) && k <= |Window(cfg)| && After(cfg, initial, k).failure.None?
    ensures var r := After(cfg, initial, k).engine.evaluations;
      && (forall record :: record in r ==> exists j :: 0 <= j < k && RecordOf(cfg, initial, j, record))
      && (forall j :: 0 <= j < k && DueAt(cfg, j) ==> exists record :: record in r && RecordOf(cfg, initial, j, record))
      && (forall a, b :: 0 <= a < b < |r| ==> r[a].session < r[b].session)
  {
    hide Window, WarmupOf, ConfigOk, After, EvaluationDue, RecordSays, RecordOf, DueAt, ValuedBy, NotedBy;
    if k == 0 {
      Begins(cfg, initial);
    } else {
      var i := Advanced(cfg, initial, k - 1);
      EvaluationsSay(cfg, initial, k - 1);
      var e, r := After(cfg, initial, k - 1).engine, After(cfg, initial, k).engine;
      DueIff(cfg, k - 1, i);
      if EvaluationDue(cfg, WarmupOf(cfg), i) {
        DueHasNext(cfg, WarmupOf(cfg), i);
        var record :| r.evaluations == e.evaluations + [record]
          && RecordSays(cfg, r.state, cfg.data.calendar[i], cfg.data.calendar[i + 1], record.weights, record);
        RecordIs(cfg, initial, k - 1, i, record);
        forall a | 0 <= a < |e.evaluations| ensures e.evaluations[a].session < record.session {
          assert e.evaluations[a] in e.evaluations;
          var j :| 0 <= j < k - 1 && RecordOf(cfg, initial, j, e.evaluations[a]);
          EarlierRecord(cfg, initial, j, k - 1, e.evaluations[a], record);
        }
        OneMore(cfg, initial, k, e.evaluations, record);
      }
    }
  }

  lemma DueHasNext(cfg: Config, warmup: int, i: nat)
    requires i < |cfg.data.calendar| && EvaluationDue(cfg, warmup, i)
    ensures i + 1 < |cfg.data.calendar|
  {
  }

  lemma DueIff(cfg: Config, j: nat, i: nat)
    requires ConfigOk(cfg) && PlaceOf(cfg, j, i)
    ensures DueAt(cfg, j) <==> EvaluationDue(cfg, WarmupOf(cfg), i)
  {
    hide Window, WarmupOf, ConfigOk, EvaluationDue;
    if x: nat :| PlaceOf(cfg, j, x) && EvaluationDue(cfg, WarmupOf(cfg), x) {
      assert x == i;
    }
  }

  lemma RecordIs(cfg: Config, initial: PortfolioState, j: nat, i: nat, record: EvaluationRecord)
    requires ConfigOk(cfg) && PlaceOf(cfg, j, i) && EvaluationDue(cfg, WarmupOf(cfg), i) && i + 1 < |cfg.data.calendar|
    requires RecordSays(cfg, After(cfg, initial, j + 1).engine.state, cfg.data.calendar[i], cfg.data.calendar[i + 1], record.weights, record)
    ensures RecordOf(cfg, initial, j, record)
  {
    hide Window, WarmupOf, ConfigOk, After, EvaluationDue, RecordSays;
  }

  lemma EarlierRecord(cfg: Config, initial: PortfolioState, j: nat, k: nat, a: EvaluationRecord, b: EvaluationRecord)
    requires ConfigOk(cfg) && j < k < |Window(cfg)| && RecordOf(cfg, initial, j, a) && RecordOf(cfg, initial, k, b)
    ensures a.session < b.session
  {
    hide Window, WarmupOf, ConfigOk, After, EvaluationDue, PlanPrices;
    WindowSays(cfg);
  }

  lemma OneMore(cfg: Config, initial: PortfolioState, k: nat, before: seq<EvaluationRecord>, record: EvaluationRecord)
    requires ConfigOk(cfg) && k > 0 && RecordOf(cfg, initial, k - 1, record)
    requires forall x :: x in before ==> exists j :: 0 <= j < k - 1 && RecordOf(cfg, initial, j, x)
    requires forall j :: 0 <= j < k - 1 && DueAt(cfg, j) ==> exists x :: x in before && RecordOf(cfg, initial, j, x)
    ensures forall x :: x in before + [record] ==> exists j :: 0 <= j < k && RecordOf(cfg, initial, j, x)
    ensures forall j :: 0 <= j < k && DueAt(cfg, j) ==> exists x :: x in before + [record] && RecordOf(cfg, initial, j, x)
  {
    hide ConfigOk, RecordOf, DueAt;
    assert record in before + [record];
    forall j | 0 <= j < k && DueAt(cfg, j) ensures exists x :: x in before + [record] && RecordOf(cfg, initial, j, x) {
      if j < k - 1 {
        var x :| x in before && RecordOf(cfg, initial, j, x);
        assert x in before + [record];
      }
    }
  }

  /* ---- what is reported ---- */

  ghost function ResolutionFaults(cfg: Config): Findings
    requires ConfigOk(cfg)
  {
    Resolution.Resolve(cfg.catalog, cfg.document, cfg.components).faults
  }

  /** Components resolve and the cost model is supported. */
  ghost predicate Startable(cfg: Config)
    requires ConfigOk(cfg)
  {
    ResolutionFaults(cfg) == {} && 0.0 <= cfg.document.bps < 10000.0
  }

  /** The records reported are those of a state. */
  ghost predicate RecordsOf(r: BacktestResult, e: EngineState) {
    && r.valuations == e.valuations && r.staleMarks == e.staleMarks && r.evaluations == e.evaluations && r.fills == e.fills
    && r.finalState == e.state && r.notes == e.notes && r.trace == e.trace
  }

  /** The first and the last session of the calendar within the bounds, if there is one. */
  ghost predicate SpansWindow(cfg: Config, r: BacktestResult) {
    && (r.first.None? <==> forall s :: s in cfg.data.calendar ==> !InBounds(cfg, s))
    && (r.last.None? <==> forall s :: s in cfg.data.calendar ==> !InBounds(cfg, s))
    && (r.first.Some? ==> DateInBounds(cfg, r.first.value) && forall s :: s in cfg.data.calendar && InBounds(cfg, s) ==> r.first.value <= s.date)
    && (r.last.Some? ==> DateInBounds(cfg, r.last.value) && forall s :: s in cfg.data.calendar && InBounds(cfg, s) ==> s.date <= r.last.value)
  }

  ghost predicate DateInBounds(cfg: Config, date: Date) {
    exists s :: s in cfg.data.calendar && InBounds(cfg, s) && s.date == date
  }

  lemma FinishSpans(cfg: Config, e: EngineState, failure: Option<Report>)
    ensures SpansWindow(cfg, Finish(Window(cfg), e, failure))
  {
    hide Window, InBounds;
    WindowSays(cfg);
    var w := Window(cfg);
    if w != [] {
      var first, last := w[0], w[|w| - 1];
      assert first in w && last in w;
      forall s | s in cfg.data.calendar && InBounds(cfg, s) ensures first.date <= s.date <= last.date {
        var k :| 0 <= k < |w| && w[k] == s;
      }
    }
  }

  /** A session that fails names its faults. */
  lemma FailureNames(cfg: Config, warmup: int, e: EngineState, i: nat, r: StepResult)
    requires ConfigOk(cfg) && i < |cfg.data.calendar| && SessionSays(cfg, warmup, e, i, r) && r.failure.Some?
    ensures r.failure.value != multiset{}
  {
    hide ConfigOk, OpenSays, MarkedSays, CloseSays;
    var s := cfg.data.calendar[i];
    var filled, marked :| OpenSays(cfg, e, s, filled)
      && if filled.failure.Some? then r == filled
         else MarkedSays(cfg, filled.engine, s, marked) && if marked.failure.Some? then r == marked else CloseSays(cfg, warmup, marked.engine, i, r);
    if filled.failure.Some? {
      RefusalNames(cfg, e, s, filled);
    } else if marked.failure.Some? {
      UnmarkedNames(cfg, filled.engine, s, marked);
    } else {
      CloseNames(cfg, warmup, marked.engine, i, r);
    }
  }

  lemma RefusalNames(cfg: Config, e: EngineState, s: MarketSession, r: StepResult)
    requires OpenSays(cfg, e, s, r) && r.failure.Some?
    ensures r.failure.value != multiset{}
  {
    hide AsOf, ApplyOrders, PositiveOpens, Emitted;
    AsOfOpensPositive(cfg.data, s.openAt);
    RejectionNames(e.state, e.pending.value.orders, AsOf(cfg.data, s.openAt), s.date, cfg.document.bps);
  }

  lemma RejectionNames(state: PortfolioState, orders: seq<Order>, view: DataView, date: Date, bps: real)
    requires PositiveOpens(view)
    ensures var r := ApplyOrders(state, orders, view, date, bps);
      r.Rejected? ==> r.diagnostics != multiset{}
  {
    hide PositiveOpens, OrderFaults, OpensFor, Filled;
    if !CostsSupported(bps) {
      NotEmpty(ApplyOrders(state, orders, view, date, bps).diagnostics, Fault(InvalidTransactionCosts, 0));
    }
  }

  lemma UnmarkedNames(cfg: Config, e: EngineState, s: MarketSession, r: StepResult)
    requires MarkedSays(cfg, e, s, r) && r.failure.Some?
    ensures r.failure.value != multiset{}
  {
    hide FirstUnmarked;
  }

  lemma CloseNames(cfg: Config, warmup: int, e: EngineState, i: nat, r: StepResult)
    requires ConfigOk(cfg) && i < |cfg.data.calendar| && CloseSays(cfg, warmup, e, i, r) && r.failure.Some?
    ensures r.failure.value != multiset{}
  {
    hide ConfigOk, EvaluatedSays, Emitted, FiresAt, PastBound;
    var s := cfg.data.calendar[i];
    if EvaluationDue(cfg, warmup, i) {
      EvaluationNames(cfg, e, s, cfg.data.calendar[i + 1], r);
    }
  }

  lemma EvaluationNames(cfg: Config, e: EngineState, s: MarketSession, next: MarketSession, r: StepResult)
    requires ConfigOk(cfg) && EvaluatedSays(cfg, e, s, next, r) && r.failure.Some?
    ensures r.failure.value != multiset{}
  {
    hide KeyedByIdentity, Resolution.Resolvable, Evaluation, AsOf, NodesTold, PlannedSays;
    var outcome := Evaluation(cfg.catalog, cfg.document, cfg.components, Context(AsOf(cfg.data, s.closeAt), e.memo));
    var told :| NodesTold(cfg, s.closeAt, outcome.trace, told)
      && if outcome.targets.None?
         then r == StepResult(EvaluatedState(e, outcome, told), Some(multiset{Fault(EvaluationFailed, s.date)} + multiset(outcome.diagnostics)))
         else PlannedSays(cfg, EvaluatedState(e, outcome, told), s, next, outcome.targets.value, r);
    if outcome.targets.None? {
      NotEmpty(r.failure.value, Fault(EvaluationFailed, s.date));
    } else {
      PlanNames(cfg, EvaluatedState(e, outcome, told), s, next, outcome.targets.value, r);
    }
  }

  lemma PlanNames(cfg: Config, e: EngineState, s: MarketSession, next: MarketSession, targets: Weights, r: StepResult)
    requires PlannedSays(cfg, e, s, next, targets, r) && r.failure.Some?
    ensures r.failure.value != multiset{}
  {
    hide RecordSays, Emitted, Idle;
    NotEmpty(r.failure.value, Fault(ReconciliationFailed, s.date));
  }

  lemma NotEmpty(r: Report, d: Diagnostic)
    requires d in r
    ensures r != multiset{}
  {
  }

  /** The entry check refuses a run whose components do not resolve, and one whose costs are not supported. */
  lemma EntrySays(cfg: Config)
    requires ConfigOk(cfg)
    ensures var refused := EntryCheck(cfg);
      && (refused.None? <==> Startable(cfg))
      && (ResolutionFaults(cfg) != {} ==> refused == Some(multiset(ResolutionFaults(cfg))))
      && (ResolutionFaults(cfg) == {} && refused.Some? ==> refused == Some(multiset{Fault(InvalidTransactionCosts, 0)}))
      && (refused.Some? ==> refused.value != multiset{})
  {
    hide KeyedByIdentity, Resolution.Resolvable, Resolution.Resolve;
    var faults := ResolutionFaults(cfg);
    if d :| d in faults {
      assert d in multiset(faults);
    }
  }

  /** The first session that fails, if one does. */
  lemma FirstFailure(cfg: Config, initial: PortfolioState, n: nat) returns (k: nat)
    requires ConfigOk(cfg) && n <= |Window(cfg)| && After(cfg, initial, n).failure.Some?
    ensures k < n && After(cfg, initial, k).failure.None? && After(cfg, initial, k + 1) == After(cfg, initial, n)
  {
    hide Window, WarmupOf, ConfigOk, After, SessionSays;
    Begins(cfg, initial);
    if n > 0 {
      if After(cfg, initial, n - 1).failure.None? {
        return n - 1;
      }
      var i := HasPlace(cfg, n - 1);
      RunSays(cfg, initial, n - 1, i);
      k := FirstFailure(cfg, initial, n - 1);
    }
  }

  /** The run failed at session k, with these diagnostics. */
  ghost predicate FailedAt(cfg: Config, initial: PortfolioState, k: nat, diagnostics: Report)
    requires ConfigOk(cfg)
  {
    k < |Window(cfg)| && After(cfg, initial, k).failure.None? && After(cfg, initial, k + 1).failure == Some(diagnostics)
  }

  lemma WholeRun(cfg: Config, initial: PortfolioState)
    requires ConfigOk(cfg)
    ensures After(cfg, initial, |Window(cfg)|) == Steps(cfg, WarmupOf(cfg), Initial(initial), Window(cfg))
  {
    hide Window, WarmupOf, ConfigOk, Steps;
    assert Window(cfg)[..|Window(cfg)|] == Window(cfg);
  }

  /** No session of the window fails. */
  ghost predicate Completes(cfg: Config, initial: PortfolioState)
    requires ConfigOk(cfg)
  {
    forall k: nat, diagnostics :: !FailedAt(cfg, initial, k, diagnostics)
  }

  lemma CompletesIff(cfg: Config, initial: PortfolioState)
    requires ConfigOk(cfg)
    ensures Completes(cfg, initial) <==> After(cfg, initial, |Window(cfg)|).failure.None?
  {
    hide Window, WarmupOf, ConfigOk, After;
    var n := |Window(cfg)|;
    if After(cfg, initial, n).failure.Some? {
      var k := FirstFailure(cfg, initial, n);
      assert FailedAt(cfg, initial, k, After(cfg, initial, n).failure.value);
    }
    forall k: nat, diagnostics | FailedAt(cfg, initial, k, diagnostics) ensures After(cfg, initial, n).failure.Some? {
      StaysFailed(cfg, initial, k + 1, n);
    }
  }

  lemma StaysFailed(cfg: Config, initial: PortfolioState, k: nat, n: nat)
    requires ConfigOk(cfg) && k <= n <= |Window(cfg)| && After(cfg, initial, k).failure.Some?
    ensures After(cfg, initial, n) == After(cfg, initial, k)
    decreases n
  {
    hide Window, WarmupOf, ConfigOk, After, SessionSays;
    if k < n {
      StaysFailed(cfg, initial, k, n - 1);
      var i := HasPlace(cfg, n - 1);
      RunSays(cfg, initial, n - 1, i);
    }
  }

  /** A backtest reports success exactly when it may start and no session of the window fails. */
  lemma BacktestOkIff(cfg: Config, initial: PortfolioState)
    requires ConfigOk(cfg)
    ensures Backtest(cfg, initial).ok <==> Startable(cfg) && Completes(cfg, initial)
    ensures SpansWindow(cfg, Backtest(cfg, initial))
  {
    hide Window, WarmupOf, ConfigOk, After, EntryCheck, Startable, Completes, Steps, SpansWindow;
    EntrySays(cfg);
    WholeRun(cfg, initial);
    CompletesIff(cfg, initial);
    var refused := EntryCheck(cfg);
    if refused.Some? {
      FinishSpans(cfg, Initial(initial), refused);
    } else {
      var r := Steps(cfg, WarmupOf(cfg), Initial(initial), Window(cfg));
      FinishSpans(cfg, r.engine, r.failure);
    }
  }

  /** A successful backtest has no diagnostics, values the portfolio once for every session of the window, in order, reports the
      records of its last state, and leaves no order queued. */
  lemma OkReports(cfg: Config, initial: PortfolioState)
    requires ConfigOk(cfg) && Backtest(cfg, initial).ok
    ensures var r, last := Backtest(cfg, initial), After(cfg, initial, |Window(cfg)|);
      && r.diagnostics == multiset{} && last.failure.None? && RecordsOf(r, last.engine) && last.engine.pending.None?
      && |r.valuations| == |Window(cfg)| && forall k :: 0 <= k < |Window(cfg)| ==> ValuationOf(cfg, initial, k, r.valuations[k])
  {
    hide Window, WarmupOf, ConfigOk, After, EntryCheck, Startable, Completes, Steps, ValuationOf;
    BacktestOkIff(cfg, initial);
    EntrySays(cfg);
    WholeRun(cfg, initial);
    CompletesIff(cfg, initial);
    ValuationsSay(cfg, initial, |Window(cfg)|);
    OkRunEndsUnqueued(cfg, initial);
  }

  /** A failed backtest names its faults: those of the entry check, over a run that has not begun, or those of the first session
      that fails, over the records up to that failure. */
  lemma FailedReports(cfg: Config, initial: PortfolioState)
    requires ConfigOk(cfg) && !Backtest(cfg, initial).ok
    ensures var r := Backtest(cfg, initial);
      r.diagnostics != multiset{}
      && if ResolutionFaults(cfg) != {} then r.diagnostics == multiset(ResolutionFaults(cfg)) && RecordsOf(r, After(cfg, initial, 0).engine)
         else if !Startable(cfg) then r.diagnostics == multiset{Fault(InvalidTransactionCosts, 0)} && RecordsOf(r, After(cfg, initial, 0).engine)
         else exists k: nat :: FailedAt(cfg, initial, k, r.diagnostics) && RecordsOf(r, After(cfg, initial, k + 1).engine)
  {
    hide Window, WarmupOf, ConfigOk, After, EntryCheck, Startable, ResolutionFaults, Steps, FailedAt;
    EntrySays(cfg);
    StartSays(cfg);
    if Startable(cfg) {
      FailedRun(cfg, initial);
    } else {
      Begins(cfg, initial);
    }
  }

  lemma FailedRun(cfg: Config, initial: PortfolioState)
    requires ConfigOk(cfg) && EntryCheck(cfg).None? && !Backtest(cfg, initial).ok
    ensures var r := Backtest(cfg, initial);
      r.diagnostics != multiset{} && exists k: nat :: FailedAt(cfg, initial, k, r.diagnostics) && RecordsOf(r, After(cfg, initial, k + 1).engine)
  {
    hide Window, WarmupOf, ConfigOk, After, EntryCheck, Steps, SessionSays;
    WholeRun(cfg, initial);
    var k := FirstFailure(cfg, initial, |Window(cfg)|);
    var i := HasPlace(cfg, k);
    RunSays(cfg, initial, k, i);
    FailureNames(cfg, WarmupOf(cfg), After(cfg, initial, k).engine, i, After(cfg, initial, k + 1));
    assert FailedAt(cfg, initial, k, Backtest(cfg, initial).diagnostics);
  }

  lemma StartSays(cfg: Config)
    requires ConfigOk(cfg)
    ensures Startable(cfg) ==> ResolutionFaults(cfg) == {}
  {
  }

  /* ---- replays ---- */

  /** What a replay reports at any point: success exactly while it has no failure, the diagnostics of its failure, and the
      records so far. */
  lemma ReplayReports(cfg: Config, c: Checkpoint)
    ensures var r := ResultOf(cfg, c);
      && (r.ok <==> c.failure.None?) && r.diagnostics == (if c.failure.Some? then c.failure.value else multiset{})
      && RecordsOf(r, c.engine) && SpansWindow(cfg, r)
  {
    hide Window;
    FinishSpans(cfg, c.engine, c.failure);
  }

  /** However it was cut, a replay reports success exactly when the run may start and none of the sessions fed so far fails, and
      its records are those of the run after as many sessions. */
  lemma ReplaySoFar(cfg: Config, initial: PortfolioState, actions: seq<Action>)
    requires ConfigOk(cfg) && MemoSafe(cfg)
    ensures var c := Drive(cfg, initial, actions);
      && (ResultOf(cfg, c).ok ==> Startable(cfg))
      && (Startable(cfg) ==> c.cursor <= |Window(cfg)| && (ResultOf(cfg, c).ok <==> After(cfg, initial, c.cursor).failure.None?)
                             && RecordsOf(ResultOf(cfg, c), After(cfg, initial, c.cursor).engine))
  {
    hide Window, WarmupOf, ConfigOk, MemoSafe, Drive, EntryCheck, Startable, ResultOf, Steps, MemoJustified;
    EntrySays(cfg);
    DriveFaithful(cfg, initial, actions);
    var c := Drive(cfg, initial, actions);
    ReplayReports(cfg, c);
    if Startable(cfg) {
      RunPlain(cfg, initial, c.cursor);
      SameRecords(After(cfg, initial, c.cursor), StepResult(c.engine, c.failure), ResultOf(cfg, c));
    } else {
      assert c.failure == EntryCheck(cfg);
    }
  }

  lemma SameRecords(a: StepResult, b: StepResult, r: BacktestResult)
    requires PlainResult(a) == PlainResult(b) && RecordsOf(r, b.engine)
    ensures RecordsOf(r, a.engine) && a.failure == b.failure
  {
    assert a.failure == PlainResult(a).failure == PlainResult(b).failure == b.failure;
    var p, q := a.engine.Plain(), b.engine.Plain();
    assert p == PlainResult(a).engine == PlainResult(b).engine == q;
    assert a.engine.valuations == p.valuations && b.engine.valuations == q.valuations;
  }
}
