/** The stepwise driver: quantize/engine/forward.py. It advances one session at a time and can be cut at any session
    boundary into a checkpoint, from which a fresh engine, with a fresh cursor and memo, continues. */
module Replay {
  import opened Collections
  import opened Cursor
  import opened Diagnostics
  import opened Engine
  import opened Fills
  import Reconciliation
  import Schedule
  import opened StrategyEvaluation
  import opened Market
  import opened MemoRuns
  import opened Memos
  import opened Portfolio
  import opened Sessions

  /** The replayable state of a forward run at a session boundary. */
  datatype Checkpoint = Checkpoint(engine: EngineState, cursor: nat, failure: Option<Report>)

  /** What one `advance()` did. */
  datatype SessionAdvance = SessionAdvance(session: Date, ok: bool, evaluated: bool, fills: seq<Fill>, portfolioValue: Option<real>)

  ghost function Start(cfg: Config, initial: PortfolioState): Checkpoint
    requires ConfigOk(cfg)
  {
    Checkpoint(Initial(initial), 0, EntryCheck(cfg))
  }

  ghost predicate Exhausted(cfg: Config, c: Checkpoint) {
    c.failure.Some? || c.cursor >= |Window(cfg)|
  }

  ghost function Advanced(cfg: Config, c: Checkpoint): Checkpoint
    requires ConfigOk(cfg)
  {
    if Exhausted(cfg, c) then c
    else
      var r := Step(cfg, WarmupOf(cfg), c.engine, Window(cfg)[c.cursor]);
      Checkpoint(r.engine, c.cursor + 1, r.failure)
  }

  /** What a snapshot keeps: everything but the memo. */
  function Taken(c: Checkpoint): Checkpoint {
    c.(engine := c.engine.Plain())
  }

  /** A fresh engine starts with an empty memo. A dead run stays dead; otherwise the entry check is run again. */
  ghost function Resumed(cfg: Config, c: Checkpoint): Checkpoint
    requires ConfigOk(cfg)
  {
    c.(engine := c.engine.(memo := Some(map[])), failure := if c.failure.Some? then c.failure else EntryCheck(cfg))
  }

  ghost function ResultOf(cfg: Config, c: Checkpoint): BacktestResult {
    Finish(Window(cfg), c.engine, c.failure)
  }

  /* ---- whole replays ---- */

  datatype Action = Advance | SnapshotAndResume

  ghost function Act(cfg: Config, c: Checkpoint, action: Action): Checkpoint
    requires ConfigOk(cfg)
  {
    match action
    case Advance => Advanced(cfg, c)
    case SnapshotAndResume => Resumed(cfg, Taken(c))
  }

  /** Any interleaving of advances and checkpoint cuts. */
  ghost function Drive(cfg: Config, initial: PortfolioState, actions: seq<Action>): Checkpoint
    requires ConfigOk(cfg)
  {
    if actions == [] then Start(cfg, initial)
    else Act(cfg, Drive(cfg, initial, actions[..|actions| - 1]), actions[|actions| - 1])
  }

  function Advances(actions: seq<Action>): nat {
    if actions == [] then 0
    else Advances(actions[..|actions| - 1]) + if actions[|actions| - 1] == Advance then 1 else 0
  }

  /** The replay is where the memo-free run is after the same number of sessions, and its memo is justified. */
  ghost predicate Faithful(cfg: Config, initial: PortfolioState, c: Checkpoint)
    requires ConfigOk(cfg)
  {
    if EntryCheck(cfg).Some? then c == Start(cfg, initial)
    else c.cursor <= |Window(cfg)|
         && PlainResult(StepResult(c.engine, c.failure)) == PlainSteps(cfg, initial, c.cursor)
         && (c.failure.None? ==> MemoJustified(cfg, c.cursor, c.engine))
  }

  lemma StartFaithful(cfg: Config, initial: PortfolioState)
    requires ConfigOk(cfg)
    ensures Faithful(cfg, initial, Start(cfg, initial))
  {
    hide EntryCheck, Window, WarmupOf, ConfigOk, Justified;
    NoSteps(cfg, WarmupOf(cfg), Initial(initial).Plain(), Window(cfg));
    EmptyJustified(cfg, 0);
  }

  lemma AdvanceFaithful(cfg: Config, initial: PortfolioState, c: Checkpoint)
    requires ConfigOk(cfg) && MemoSafe(cfg) && Faithful(cfg, initial, c)
    ensures Faithful(cfg, initial, Advanced(cfg, c))
  {
    hide EntryCheck, Window, WarmupOf, Engine.Step, Steps, ConfigOk, MemoSafe, MemoJustified;
    if EntryCheck(cfg).None? && !Exhausted(cfg, c) {
      StepsSnoc(cfg, WarmupOf(cfg), Initial(initial).Plain(), Window(cfg), c.cursor);
      StepPlain(cfg, c.cursor, c.engine);
    }
  }

  /** Cutting loses the memo, and an empty memo is justified anywhere. */
  lemma ResumeFaithful(cfg: Config, initial: PortfolioState, c: Checkpoint)
    requires ConfigOk(cfg) && Faithful(cfg, initial, c)
    ensures Faithful(cfg, initial, Resumed(cfg, Taken(c)))
  {
    hide EntryCheck, Window, WarmupOf, Steps, ConfigOk, Justified;
    if EntryCheck(cfg).None? {
      EmptyJustified(cfg, c.cursor);
    }
  }

  lemma {:induction false} DriveFaithful(cfg: Config, initial: PortfolioState, actions: seq<Action>)
    requires ConfigOk(cfg) && MemoSafe(cfg)
    ensures Faithful(cfg, initial, Drive(cfg, initial, actions))
  {
    hide Faithful, Start, Advanced, Resumed, ConfigOk, MemoSafe;
    if actions == [] {
      StartFaithful(cfg, initial);
    } else {
      var n := |actions| - 1;
      DriveFaithful(cfg, initial, actions[..n]);
      AdvanceFaithful(cfg, initial, Drive(cfg, initial, actions[..n]));
      ResumeFaithful(cfg, initial, Drive(cfg, initial, actions[..n]));
    }
  }

  /** A run that has failed, or fed every session, is finished. */
  lemma FinishedIsWhole(cfg: Config, warmup: int, e: EngineState, k: nat)
    requires ConfigOk(cfg) && k <= |Window(cfg)|
    requires Steps(cfg, warmup, e, Window(cfg)[..k]).failure.Some? || k == |Window(cfg)|
    ensures Steps(cfg, warmup, e, Window(cfg)[..k]) == Steps(cfg, warmup, e, Window(cfg))
  {
    hide Window, Steps, ConfigOk;
    if k == |Window(cfg)| {
      assert Window(cfg)[..k] == Window(cfg);
    } else {
      StepsStop(cfg, warmup, e, Window(cfg), k);
    }
  }

  /** Once exhausted, a faithful replay has the result of the run without a memo, field for field, failures included. */
  lemma ExhaustedIsPlain(cfg: Config, initial: PortfolioState, c: Checkpoint)
    requires ConfigOk(cfg) && Faithful(cfg, initial, c) && Exhausted(cfg, c)
    ensures ResultOf(cfg, c) == PlainBacktest(cfg, initial)
  {
    hide EntryCheck, Window, WarmupOf, Steps, ConfigOk, MemoJustified;
    if EntryCheck(cfg).None? {
      FinishedIsWhole(cfg, WarmupOf(cfg), Initial(initial).Plain(), c.cursor);
      assert Window(cfg)[..|Window(cfg)|] == Window(cfg);
    }
  }

  /** Every advance makes progress: as many advances as the window has sessions exhaust the replay. */
  lemma {:induction false} AdvancesExhaust(cfg: Config, initial: PortfolioState, actions: seq<Action>)
    requires ConfigOk(cfg)
    ensures Exhausted(cfg, Drive(cfg, initial, actions)) || Drive(cfg, initial, actions).cursor == Advances(actions)
    ensures Advances(actions) >= |Window(cfg)| ==> Exhausted(cfg, Drive(cfg, initial, actions))
  {
    hide EntryCheck, Window, WarmupOf, Engine.Step, ConfigOk;
    if actions != [] {
      AdvancesExhaust(cfg, initial, actions[..|actions| - 1]);
    }
  }

  /** Backtest equals forward replay: driving advances to exhaustion, with checkpoint cuts into fresh engines at any set of
      session boundaries, gives the backtest's result, although every cut discards the memo. */
  lemma ReplayEqualsBacktest(cfg: Config, initial: PortfolioState, actions: seq<Action>)
    requires ConfigOk(cfg) && MemoSafe(cfg) && Exhausted(cfg, Drive(cfg, initial, actions))
    ensures ResultOf(cfg, Drive(cfg, initial, actions)) == Backtest(cfg, initial)
  {
    hide Drive, Faithful, Exhausted, ResultOf, Backtest, ConfigOk, MemoSafe, PlainBacktest;
    DriveFaithful(cfg, initial, actions);
    ExhaustedIsPlain(cfg, initial, Drive(cfg, initial, actions));
    MemoIsInvisible(cfg, initial);
  }

  /** For every document and dataset, over a catalog like the program's own. */
  lemma StandardReplayEqualsBacktest(cfg: Config, initial: PortfolioState, actions: seq<Action>)
    requires ConfigOk(cfg) && StandardCatalog(cfg.catalog) && Exhausted(cfg, Drive(cfg, initial, actions))
    ensures ResultOf(cfg, Drive(cfg, initial, actions)) == Backtest(cfg, initial)
  {
    hide Drive, Exhausted, ResultOf, Backtest, ConfigOk, MemoSafe, StandardCatalog;
    StandardCatalogIsSafe(cfg);
    ReplayEqualsBacktest(cfg, initial, actions);
  }

  /** The replays differ at most in their memos, and both memos are justified. */
  ghost predicate Indistinguishable(cfg: Config, c: Checkpoint, d: Checkpoint)
    requires ConfigOk(cfg)
  {
    Taken(c) == Taken(d) && c.cursor <= |Window(cfg)|
    && (c.failure.None? ==> MemoJustified(cfg, c.cursor, c.engine) && MemoJustified(cfg, d.cursor, d.engine))
  }

  lemma ActTogether(cfg: Config, c: Checkpoint, d: Checkpoint, action: Action)
    requires ConfigOk(cfg) && MemoSafe(cfg) && Indistinguishable(cfg, c, d)
    ensures Indistinguishable(cfg, Act(cfg, c, action), Act(cfg, d, action))
  {
    hide EntryCheck, Window, WarmupOf, Engine.Step, ConfigOk, MemoSafe, Justified;
    match action
    case Advance =>
      if !Exhausted(cfg, c) {
        StepPlain(cfg, c.cursor, c.engine);
        StepPlain(cfg, d.cursor, d.engine);
      }
    case SnapshotAndResume =>
      EmptyJustified(cfg, c.cursor);
  }

  /** Cutting is invisible: a replay that is cut somewhere goes on exactly like one that is not. */
  lemma {:induction false} ResumeIsInvisible(cfg: Config, initial: PortfolioState, before: seq<Action>, after: seq<Action>)
    requires ConfigOk(cfg) && MemoSafe(cfg)
    ensures Indistinguishable(cfg, Drive(cfg, initial, before + [SnapshotAndResume] + after), Drive(cfg, initial, before + after))
    decreases |after|
  {
    hide Indistinguishable, EntryCheck, ConfigOk, MemoSafe, Act;
    if after == [] {
      assert before + [SnapshotAndResume] + [] == before + [SnapshotAndResume];
      assert (before + [SnapshotAndResume])[..|before|] == before && before + [] == before;
      CutOnce(cfg, initial, before);
    } else {
      var n := |after| - 1;
      var front, action := after[..n], after[n];
      ResumeIsInvisible(cfg, initial, before, front);
      assert (before + [SnapshotAndResume] + after)[..|before| + 1 + n] == before + [SnapshotAndResume] + front;
      assert (before + after)[..|before| + n] == before + front;
      ActTogether(cfg, Drive(cfg, initial, before + [SnapshotAndResume] + front), Drive(cfg, initial, before + front), action);
    }
  }

  lemma CutOnce(cfg: Config, initial: PortfolioState, before: seq<Action>)
    requires ConfigOk(cfg) && MemoSafe(cfg)
    ensures Indistinguishable(cfg, Act(cfg, Drive(cfg, initial, before), SnapshotAndResume), Drive(cfg, initial, before))
  {
    hide Drive, EntryCheck, Steps, Window, WarmupOf, ConfigOk, MemoSafe, Justified;
    DriveFaithful(cfg, initial, before);
    var c := Drive(cfg, initial, before);
    EmptyJustified(cfg, if c.cursor <= |Window(cfg)| then c.cursor else 0);
  }

  /* ---- replays that are never cut ---- */

  ghost predicate Uncut(actions: seq<Action>) {
    forall i :: 0 <= i < |actions| ==> actions[i] == Advance
  }

  /** The replay is where the backtest's own loop is after the same number of sessions. */
  ghost predicate InStep(cfg: Config, initial: PortfolioState, c: Checkpoint)
    requires ConfigOk(cfg)
  {
    if EntryCheck(cfg).Some? then c == Start(cfg, initial)
    else c.cursor <= |Window(cfg)|
         && StepResult(c.engine, c.failure) == Steps(cfg, WarmupOf(cfg), Initial(initial), Window(cfg)[..c.cursor])
  }

  lemma {:induction false} UncutInStep(cfg: Config, initial: PortfolioState, actions: seq<Action>)
    requires ConfigOk(cfg) && Uncut(actions)
    ensures InStep(cfg, initial, Drive(cfg, initial, actions))
  {
    hide EntryCheck, Window, WarmupOf, Engine.Step, ConfigOk;
    if actions == [] {
      NoSteps(cfg, WarmupOf(cfg), Initial(initial), Window(cfg));
    } else {
      var n := |actions| - 1;
      UncutInStep(cfg, initial, actions[..n]);
      var c := Drive(cfg, initial, actions[..n]);
      if EntryCheck(cfg).None? && !Exhausted(cfg, c) {
        StepsSnoc(cfg, WarmupOf(cfg), Initial(initial), Window(cfg), c.cursor);
      }
    }
  }

  /** Without cuts the two drivers agree whatever the nodes do with the memo. */
  lemma UncutReplayEqualsBacktest(cfg: Config, initial: PortfolioState, actions: seq<Action>)
    requires ConfigOk(cfg) && Uncut(actions) && Exhausted(cfg, Drive(cfg, initial, actions))
    ensures ResultOf(cfg, Drive(cfg, initial, actions)) == Backtest(cfg, initial)
  {
    hide Drive, EntryCheck, Window, WarmupOf, Steps, ConfigOk;
    UncutInStep(cfg, initial, actions);
    var c := Drive(cfg, initial, actions);
    if EntryCheck(cfg).None? {
      FinishedIsWhole(cfg, WarmupOf(cfg), Initial(initial), c.cursor);
    }
  }

  /* ---- the driver object ---- */

  class ForwardReplay {
    const engine: SessionEngine
    var cursor: nat
    var failure: Option<Report>

    /** The memo has only seen closes of sessions already fed. */
    ghost predicate MemoBehind()
      reads this, engine, engine.memo
    {
      engine.memo.highWater.Some? ==>
        0 < cursor <= |engine.sessions| && engine.memo.highWater.value <= engine.sessions[cursor - 1].closeAt
    }

    ghost predicate Valid()
      reads this, engine, engine.cursor, engine.memo
    {
      engine.Valid() && MemoBehind() && (failure.None? ==> engine.warmupTotal == WarmupOf(engine.cfg))
    }

    ghost function State(): Checkpoint
      reads this, engine, engine.memo
    {
      Checkpoint(engine.State(), cursor, failure)
    }

    constructor (cfg: Config, initial: PortfolioState)
      requires ConfigOk(cfg)
      ensures Valid() && engine.cfg == cfg && State() == Start(cfg, initial)
      ensures fresh(engine) && fresh(engine.cursor) && fresh(engine.memo)
    {
      var core := new SessionEngine(cfg, initial);
      var refused := core.CheckEntry();
      engine, cursor, failure := core, 0, refused;
    }

    /** Feed exactly the next session; nothing, idempotently, once exhausted. */
    method Advance() returns (r: Option<SessionAdvance>)
      requires Valid()
      modifies this, engine, engine.cursor, engine.memo
      ensures Valid() && State() == Advanced(engine.cfg, old(State()))
      ensures r.None? <==> Exhausted(engine.cfg, old(State()))
      ensures r.Some? ==> old(cursor) < |engine.sessions| && r.value.session == engine.sessions[old(cursor)].date
      ensures r.Some? ==> r.value.ok == failure.None?
      ensures r.Some? ==> |old(engine.allFills)| + |r.value.fills| == |engine.allFills|
      ensures r.Some? ==> forall i :: 0 <= i < |r.value.fills| ==> r.value.fills[i] == engine.allFills[|old(engine.allFills)| + i].fill
      ensures r.Some? ==> (r.value.evaluated <==> |engine.evaluations| > |old(engine.evaluations)|)
      ensures r.Some? && r.value.ok ==>
        engine.valuations != [] && r.value.portfolioValue == Some(engine.valuations[|engine.valuations| - 1].1)
      ensures r.Some? && !r.value.ok ==> r.value.portfolioValue == None
    {
      hide Engine.Step, ConfigOk, Window, WarmupOf, MarketDataCursor.Valid, Schedule.Firing;
      if failure.Some? || cursor >= |engine.sessions| {
        return None;
      }
      var session := engine.sessions[cursor];
      var evaluationsBefore, fillsBefore := |engine.evaluations|, |engine.allFills|;
      ghost var before := engine.State();
      WindowIs(engine.cfg);
      failure := engine.Step(session);
      cursor := cursor + 1;
      StepGrows(engine.cfg, engine.warmupTotal, before, session);
      var fills := FillsOf(engine.allFills[fillsBefore..]);
      if failure.Some? {
        return Some(SessionAdvance(session.date, false, |engine.evaluations| > evaluationsBefore, fills, None));
      }
      return Some(SessionAdvance(session.date, true, |engine.evaluations| > evaluationsBefore, fills,
                                 Some(engine.valuations[|engine.valuations| - 1].1)));
    }

    /** The run's facts so far; final when exhausted. */
    method Result() returns (r: BacktestResult)
      requires Valid()
      ensures r == ResultOf(engine.cfg, State())
    {
      hide Finish, ConfigOk, Window, MarketDataCursor.Valid;
      r := engine.Result(failure);
    }

    /** The memo is not part of a checkpoint. */
    method Snapshot() returns (c: Checkpoint)
      requires Valid()
      ensures c == Taken(State())
    {
      c := Checkpoint(EngineState(engine.state, engine.pending, engine.valuations, engine.staleMarks, engine.evaluations,
                                  engine.allFills, engine.notes, engine.trace, None), cursor, failure);
    }

    /** A fresh driver over the same inputs, with the checkpoint's state put in place. */
    static method Resume(checkpoint: Checkpoint, cfg: Config) returns (replay: ForwardReplay)
      requires ConfigOk(cfg)
      ensures fresh(replay) && fresh(replay.engine) && fresh(replay.engine.cursor) && fresh(replay.engine.memo)
      ensures replay.Valid() && replay.engine.cfg == cfg && replay.State() == Resumed(cfg, checkpoint)
    {
      hide ConfigOk, Window, WarmupOf, EntryCheck, MarketDataCursor.Valid, Schedule.Firing;
      replay := new ForwardReplay(cfg, checkpoint.engine.state);
      var core := replay.engine;
      core.pending := checkpoint.engine.pending;
      core.valuations := checkpoint.engine.valuations;
      core.staleMarks := checkpoint.engine.staleMarks;
      core.evaluations := checkpoint.engine.evaluations;
      core.allFills := checkpoint.engine.fills;
      core.notes := checkpoint.engine.notes;
      core.trace := checkpoint.engine.trace;
      replay.cursor := checkpoint.cursor;
      if checkpoint.failure.Some? {
        replay.failure := checkpoint.failure;
      }
    }
  }

  function FillsOf(events: seq<FillEvent>): seq<Fill> {
    seq(|events|, i requires 0 <= i < |events| => events[i].fill)
  }

  /** A step only appends to what the run has accumulated; one that advances has valued the portfolio. */
  lemma StepGrows(cfg: Config, warmup: int, e: EngineState, s: MarketSession)
    requires ConfigOk(cfg)
    ensures var r := Step(cfg, warmup, e, s);
      && e.fills <= r.engine.fills && e.evaluations <= r.engine.evaluations && e.valuations <= r.engine.valuations
      && (r.failure.None? ==> |r.engine.valuations| == |e.valuations| + 1)
  {
    hide Evaluation, Reconciliation.Reconcile, ApplyOrders, MarkToMarket, GateAt, AsOf, ConfigOk, Omitted, ClosesAt;
  }
}
