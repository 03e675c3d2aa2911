/** How an invocation ends: the driver runs exactly once unless it was stopped (cmd/upbrr/tui_runtime.go). */
module PresentationOutcome {
  import opened Text
  import opened Presentation

  /** Every reason for which a driver is not called has left a trace. */
  predicate Explained(c: Call, parentEnded: bool) {
    && (c.shared.cause == Some(ParentEnded) ==> parentEnded)
    && (c.shared.cause == Some(Unconfirmed) ==> c.shared.force)
    && (c.shared.cause == Some(OutputFailed) ==> c.config.tui && c.terminal.ended)
    && (c.shared.cause == Some(PresentationFailed) ==> c.config.tui && c.terminal.failed && !c.main.at.InUI?)
    && (c.terminal.ended ==> c.config.tui)
    && (!Before(c.driver) && c.driver.calls == 0 ==> c.shared.cause.Some? || c.terminal.ended)
  }

  /** A call that has ended without falling back had a reason not to. */
  predicate Decided(c: Call, parentEnded: bool) {
    && (c.main.at.FellBack? ==> c.config.tui && c.terminal.failed && !c.config.forced)
    && (c.main.at.Returned? && c.config.tui && c.terminal.failed && !c.config.forced ==>
        c.shared.interrupted || c.main.unconfirmed || parentEnded || c.driver.Started())
  }

  lemma {:induction false} DriverKeepsExplained(c: Call, d: DriverEvent, parentEnded: bool)
    requires Sound(c) && Explained(c, parentEnded) && Enabled(c, OfDriver(d))
    ensures Explained(Next(c, OfDriver(d), parentEnded), parentEnded)
  {
    hide Waited, Reports;
  }

  lemma {:induction false} OthersKeepExplained(c: Call, e: Event, parentEnded: bool)
    requires Sound(c) && Explained(c, parentEnded) && Enabled(c, e) && !e.OfDriver?
    requires c.main.at.InUI? || c.main.at.AfterUI? ==> c.config.tui
    ensures Explained(Next(c, e, parentEnded), parentEnded)
  {
    hide Reports, DriverCan, CallsOnce;
  }

  lemma {:induction false} MainKeepsDecided(c: Call, m: MainEvent, parentEnded: bool)
    requires Sound(c) && Explained(c, parentEnded) && Decided(c, parentEnded) && Enabled(c, OfMain(m))
    ensures Decided(Next(c, OfMain(m), parentEnded), parentEnded)
  {
    hide CallsOnce;
  }

  lemma {:induction false} OthersKeepDecided(c: Call, e: Event, parentEnded: bool)
    requires Sound(c) && Decided(c, parentEnded) && Enabled(c, e) && !e.OfMain?
    ensures Decided(Next(c, e, parentEnded), parentEnded)
  {
    hide CallsOnce, Reports;
  }

  ghost predicate Accounted(c: Call, parentEnded: bool) {
    Sound(c) && Explained(c, parentEnded) && Decided(c, parentEnded)
    && (c.main.at.InUI? || c.main.at.AfterUI? ==> c.config.tui)
  }

  lemma {:induction false} NextKeepsAccounted(c: Call, e: Event, parentEnded: bool)
    requires Accounted(c, parentEnded) && Enabled(c, e)
    ensures Accounted(Next(c, e, parentEnded), parentEnded) && Next(c, e, parentEnded).config == c.config
  {
    NextKeepsSound(c, e, parentEnded);
    MainLeavesUI(c, e, parentEnded);
    hide Next, Enabled, Sound, Explained, Decided;
    match e
    case OfDriver(d) =>
      DriverKeepsExplained(c, d, parentEnded);
      OthersKeepDecided(c, e, parentEnded);
    case OfMain(m) =>
      OthersKeepExplained(c, e, parentEnded);
      MainKeepsDecided(c, m, parentEnded);
    case _ =>
      OthersKeepExplained(c, e, parentEnded);
      OthersKeepDecided(c, e, parentEnded);
  }

  lemma MainLeavesUI(c: Call, e: Event, parentEnded: bool)
    requires Enabled(c, e)
    ensures Next(c, e, parentEnded).main.at.InUI? || Next(c, e, parentEnded).main.at.AfterUI? ==>
      c.main.at.InUI? || c.main.at.AfterUI?
  {
  }

  lemma {:induction false} FreshIsAccounted(config: Config, parentEnded: bool)
    ensures Accounted(Fresh(config, parentEnded), parentEnded)
  {
    FreshIsSound(config, parentEnded);
  }

  lemma {:induction false} ParentKeepsAccounted(c: Call, parentEnded: bool)
    requires Accounted(c, parentEnded)
    ensures Accounted(ParentCanceled(c), true)
  {
    ParentKeepsSound(c);
    hide Sound;
  }

  ghost predicate AllAccounted(config: Config, s: Invocation) {
    && Accounted(s.first, s.parentEnded) && s.first.config == config
    && (s.plain.Some? <==> s.first.main.at.FellBack?)
    && (s.plain.Some? ==> Accounted(s.plain.value, s.parentEnded) && !s.plain.value.config.tui)
  }

  lemma {:induction false} MovedKeepsAccounted(config: Config, s: Invocation, step: Step)
    requires AllAccounted(config, s) && Possible(s, step)
    ensures AllAccounted(config, Moved(s, step))
  {
    match step
    case First(e) =>
      assert Sound(s.first);
      NextKeepsSound(s.first, e, s.parentEnded);
      hide Next, Enabled, Accounted, Fresh, Sound;
      NextKeepsAccounted(s.first, e, s.parentEnded);
      FreshIsAccounted(Config.Config(false, false, false, config.production, config.keepOpen), s.parentEnded);
      FreshHasConfig(Config.Config(false, false, false, config.production, config.keepOpen), s.parentEnded);
    case Plain(e) =>
      hide Next, Enabled, Accounted;
      NextKeepsAccounted(s.plain.value, e, s.parentEnded);
    case ParentEnds =>
      hide Accounted;
      ParentKeepsAccounted(s.first, s.parentEnded);
      if s.plain.Some? { ParentKeepsAccounted(s.plain.value, s.parentEnded); }
  }

  lemma FreshHasConfig(config: Config, parentEnded: bool)
    ensures Fresh(config, parentEnded).config == config && !Fresh(config, parentEnded).main.at.FellBack?
  {
  }

  lemma {:induction false} RunKeepsAccounted(config: Config, s: Invocation, steps: seq<Step>)
    requires AllAccounted(config, s) && Run(s, steps).Some?
    ensures AllAccounted(config, Run(s, steps).value)
    decreases |steps|
  {
    hide AllAccounted, Moved, Possible;
    if steps != [] {
      MovedKeepsAccounted(config, s, steps[0]);
      RunKeepsAccounted(config, Moved(s, steps[0]), steps[1..]);
    }
  }

  lemma {:induction false} StartIsAccounted(config: Config, steps: seq<Step>)
    requires Run(Start(config), steps).Some?
    ensures AllAccounted(config, Run(Start(config), steps).value)
  {
    hide Run, Accounted, Fresh;
    FreshIsAccounted(config, false);
    FreshHasConfig(config, false);
    RunKeepsAccounted(config, Start(config), steps);
  }

  function TotalCalls(s: Invocation): nat {
    s.first.driver.calls + (if s.plain.Some? then s.plain.value.driver.calls else 0)
  }

  /**
   * The terminal has been lost without a plain call in its place: it failed although it was demanded, or its output
   * failed and its program did not say so.
   */
  predicate TerminalLost(c: Call) {
    c.config.tui && if c.terminal.failed then c.config.forced else c.terminal.ended
  }

  /**
   * An invocation that ends confirmed and uninterrupted, and whose parent has not ended, has called its driver exactly
   * once, from the terminal or after falling back, unless the terminal was lost without a plain call in its place.
   */
  lemma {:induction false} DriverRunsExactlyOnce(config: Config, steps: seq<Step>)
    requires Run(Start(config), steps).Some?
    requires var s := Run(Start(config), steps).value;
      && Last(s).main.at.Returned? && !Last(s).main.at.interrupt && !Last(s).main.unconfirmed && !s.parentEnded
      && !TerminalLost(s.first)
    ensures TotalCalls(Run(Start(config), steps).value) == 1
  {
    CalledAtMostOnce(config, steps);
    StartIsAccounted(config, steps);
    hide Run;
    var s := Run(Start(config), steps).value;
    LastHasCalled(Last(s), s.parentEnded);
  }

  /** The last call of such an invocation has called its driver. */
  lemma {:induction false} LastHasCalled(c: Call, parentEnded: bool)
    requires Accounted(c, parentEnded) && !c.main.at.FellBack?
    requires c.main.at.Returned? && !c.main.at.interrupt && !c.main.unconfirmed && !parentEnded
    requires !TerminalLost(c)
    ensures c.driver.calls >= 1
  {
    assert c.driver.Over() && !c.shared.interrupted && !c.shared.force;
    assert c.shared.cause != Some(UserInterrupt) && c.shared.cause != Some(Unconfirmed);
    if c.driver.calls == 0 && c.shared.cause.Some? {
      match c.shared.cause.value
      case OutputFailed =>
      case PresentationFailed =>
      case _ =>
    }
  }

  /** There is a plain call only in place of a terminal that was not demanded and whose program failed. */
  lemma {:induction false} PlainOnlyAfterFailure(config: Config, steps: seq<Step>)
    requires Run(Start(config), steps).Some? && Run(Start(config), steps).value.plain.Some?
    ensures config.tui && !config.forced && Run(Start(config), steps).value.first.terminal.failed
  {
    hide Run;
    StartIsAccounted(config, steps);
  }

  /** Once the parent has ended, no plain call begins any more. */
  lemma {:induction false} NoPlainAfterParent(s: Invocation, steps: seq<Step>)
    requires s.parentEnded && s.plain.None? && Run(s, steps).Some?
    ensures Run(s, steps).value.plain.None?
    decreases |steps|
  {
    if steps != [] {
      FallingBackNeedsParent(s, steps[0]);
      hide Moved, Possible;
      NoPlainAfterParent(Moved(s, steps[0]), steps[1..]);
    }
  }

  lemma {:induction false} FallingBackNeedsParent(s: Invocation, step: Step)
    requires s.parentEnded && s.plain.None? && Possible(s, step)
    ensures Moved(s, step).plain.None? && Moved(s, step).parentEnded
  {
    hide DriverNext, DriverShares, TerminalNext, TerminalShares, WorkerNext, WorkerShares, DriverCan, WorkerCan;
  }
}
