/** Interrupts, cancellation and forced ends over all runs of one call (cmd/upbrr/tui_runtime.go). */
module PresentationStops {
  import opened Text
  import opened Presentation

  /** What happens to a call: an event of its own threads, or the end of its parent. */
  datatype Move = Does(event: Event, parentEnded: bool) | ParentEnds

  predicate Possible(c: Call, m: Move) { m.Does? ==> Enabled(c, m.event) }

  function Moved(c: Call, m: Move): Call
    requires Possible(c, m)
  {
    match m
    case Does(e, parentEnded) => Next(c, e, parentEnded)
    case ParentEnds => ParentCanceled(c)
  }

  function Run(c: Call, moves: seq<Move>): Option<Call>
    decreases |moves|
  {
    if moves == [] then Some(c) else if Possible(c, moves[0]) then Run(Moved(c, moves[0]), moves[1..]) else None
  }

  /** A move of the run for which `p` holds in the state that it is made in. */
  ghost predicate Happens(p: (Call, Move) -> bool, c: Call, moves: seq<Move>)
    decreases |moves|
  {
    && moves != [] && Possible(c, moves[0])
    && (p(c, moves[0]) || Happens(p, Moved(c, moves[0]), moves[1..]))
  }

  // ---- Interrupts ----

  /**
   * The user interrupts: with the cancel key, whose handler gets to remembering it, with that key while a plain call
   * reads a password, or by a signal, except one that only closes a finished dashboard.
   */
  predicate IsInterrupt(c: Call, m: Move) {
    m.Does? && match m.event
    case OfTerminal(t) => t.KeyContinues? && c.terminal.key.KeyMarks?
    case OfDriver(d) => d.ReadsCancel? && c.config.production && !c.config.tui
    case OfWorker(w) =>
      w.Signal? && !(c.driver.at.Ended? && c.config.tui && c.config.keepOpen && c.shared.cause.None?)
    case OfMain(_) => false
  }

  lemma {:induction false} InterruptIsRemembered(c: Call, m: Move)
    requires Possible(c, m)
    ensures Moved(c, m).shared.interrupted <==> c.shared.interrupted || IsInterrupt(c, m)
  {
  }

  /** In every run, what is remembered is whether the user has interrupted. */
  lemma {:induction false} InterruptedExactly(c: Call, moves: seq<Move>)
    requires Run(c, moves).Some?
    ensures Run(c, moves).value.shared.interrupted <==> c.shared.interrupted || Happens(IsInterrupt, c, moves)
    decreases |moves|
  {
    hide IsInterrupt, Moved, Possible;
    if moves != [] {
      InterruptIsRemembered(c, moves[0]);
      InterruptedExactly(Moved(c, moves[0]), moves[1..]);
    }
  }

  lemma {:induction false} RunKeepsSound(c: Call, moves: seq<Move>)
    requires Sound(c) && Run(c, moves).Some?
    ensures Sound(Run(c, moves).value)
    decreases |moves|
  {
    hide Sound, Next, Enabled, ParentCanceled;
    if moves != [] {
      match moves[0] {
        case Does(e, parentEnded) => NextKeepsSound(c, e, parentEnded);
        case ParentEnds => ParentKeepsSound(c);
      }
      RunKeepsSound(Moved(c, moves[0]), moves[1..]);
    }
  }

  /** The exit status of a confirmed end tells whether the user has interrupted. */
  lemma {:induction false} ExitTellsInterrupts(config: Config, parentEnded: bool, moves: seq<Move>)
    requires Run(Fresh(config, parentEnded), moves).Some?
    requires var c := Run(Fresh(config, parentEnded), moves).value; c.main.at.Returned? && !c.main.unconfirmed
    ensures Run(Fresh(config, parentEnded), moves).value.main.at.interrupt
      <==> Happens(IsInterrupt, Fresh(config, parentEnded), moves)
  {
    FreshIsSound(config, parentEnded);
    RunKeepsSound(Fresh(config, parentEnded), moves);
    InterruptedExactly(Fresh(config, parentEnded), moves);
    hide Run, Happens, CallsOnce, Remembers, Waited;
  }

  // ---- Forced ends ----

  /**
   * Waiting is given up: at a cancel key after an interrupt, at a signal after the worker has seen the work canceled,
   * and when the deadline passes.
   */
  predicate IsForced(c: Call, m: Move) {
    m.Does? && match m.event
    case OfTerminal(t) => t.KeyPressed? && c.config.production && c.shared.interrupted
    case OfWorker(w) => w.Deadline? || (w.Continues? && c.worker.at.Forces? && c.worker.canceled)
    case _ => false
  }

  lemma {:induction false} ForceIsDecided(c: Call, m: Move)
    requires Possible(c, m)
    ensures Moved(c, m).shared.force <==> c.shared.force || IsForced(c, m)
  {
  }

  lemma {:induction false} ForcedExactly(c: Call, moves: seq<Move>)
    requires Run(c, moves).Some?
    ensures Run(c, moves).value.shared.force <==> c.shared.force || Happens(IsForced, c, moves)
    decreases |moves|
  {
    hide IsForced, Moved, Possible;
    if moves != [] {
      ForceIsDecided(c, moves[0]);
      ForcedExactly(Moved(c, moves[0]), moves[1..]);
    }
  }

  predicate HandlesSecondSignal(c: Call) { c.worker.canceled && (c.worker.at.Cancels? || c.worker.at.Forces?) }

  /** Once the worker has taken a signal after it has seen the work canceled, it cannot go on without giving up. */
  lemma {:induction false} SecondSignalForces(c: Call, moves: seq<Move>)
    requires HandlesSecondSignal(c) && Run(c, moves).Some?
    ensures HandlesSecondSignal(Run(c, moves).value) || Run(c, moves).value.shared.force
    decreases |moves|
  {
    if moves != [] {
      var next := Moved(c, moves[0]);
      assert HandlesSecondSignal(next) || next.shared.force;
      hide Moved, HandlesSecondSignal, Possible;
      if HandlesSecondSignal(next) {
        SecondSignalForces(next, moves[1..]);
      } else {
        ForcedExactly(next, moves[1..]);
      }
    }
  }

  /** A worker that has seen the work canceled has set its deadline. */
  predicate Watched(c: Call) { c.worker.canceled ==> c.worker.timer && c.shared.cause.Some? }

  lemma {:induction false} MovedKeepsWatched(c: Call, m: Move)
    requires Watched(c) && Possible(c, m)
    ensures Watched(Moved(c, m))
  {
  }

  lemma {:induction false} RunKeepsWatched(c: Call, moves: seq<Move>)
    requires Watched(c) && Run(c, moves).Some?
    ensures Watched(Run(c, moves).value)
    decreases |moves|
  {
    hide Watched, Moved, Possible;
    if moves != [] {
      MovedKeepsWatched(c, moves[0]);
      RunKeepsWatched(Moved(c, moves[0]), moves[1..]);
    }
  }

  /**
   * A canceled production command never depends on its driver: as long as the worker watches, it can notice the
   * cancellation, let the deadline pass, and main goes on with an unconfirmed result.
   */
  lemma {:induction false} DeadlineFreesMain(config: Config, parentEnded: bool, moves: seq<Move>)
    requires Run(Fresh(config, parentEnded), moves).Some?
    requires var c := Run(Fresh(config, parentEnded), moves).value;
      c.shared.cause.Some? && c.worker.at.Watching? && c.main.at.Awaiting?
    ensures var c := Run(Fresh(config, parentEnded), moves).value;
      var notice := if c.worker.canceled then [] else [Does(OfWorker(SeesCancel), parentEnded)];
      var end := Run(c, notice + [Does(OfWorker(Deadline), parentEnded), Does(OfMain(TakesForce), parentEnded)]);
      end.Some? && end.value.main.at.Stopping? && end.value.main.unconfirmed && end.value.driver == c.driver
  {
    RunKeepsWatched(Fresh(config, parentEnded), moves);
    var c := Run(Fresh(config, parentEnded), moves).value;
    var last := [Does(OfWorker(Deadline), parentEnded), Does(OfMain(TakesForce), parentEnded)];
    var noticed := if c.worker.canceled then c else Next(c, OfWorker(SeesCancel), parentEnded);
    assert noticed.worker.timer && noticed.worker.at.Watching?;
    var forced := Next(noticed, OfWorker(Deadline), parentEnded);
    assert Run(forced, last[1..]) == Some(Next(forced, OfMain(TakesForce), parentEnded)) by {
      assert last[1..][1..] == [];
    }
    assert Run(noticed, last) == Run(forced, last[1..]);
    if c.worker.canceled {
      assert [] + last == last;
    } else {
      var all := [Does(OfWorker(SeesCancel), parentEnded)] + last;
      assert all[1..] == last;
    }
  }

  // ---- Cancellation ----

  /** What cancels the work, and why. */
  function Cancels(c: Call, m: Move): Option<Cause> {
    match m
    case ParentEnds => Some(ParentEnded)
    case Does(OfTerminal(OutputFails), _) => Some(OutputFailed)
    case Does(OfTerminal(KeyContinues), _) => if c.terminal.key.KeyCancels? then Some(UserInterrupt) else None
    case Does(OfDriver(CancelsWork), _) => Some(UserInterrupt)
    case Does(OfWorker(Continues), _) => if c.worker.at.Cancels? then Some(UserInterrupt) else None
    case Does(OfWorker(Deadline), _) => Some(Unconfirmed)
    case Does(OfMain(Proceeds), _) =>
      if c.main.at.AfterUI? && c.terminal.failed then Some(PresentationFailed) else None
    case _ => None
  }

  /** The cause of the first move of a run that cancels the work. */
  function FirstCause(c: Call, moves: seq<Move>): Option<Cause>
    decreases |moves|
  {
    if moves == [] || !Possible(c, moves[0]) then None
    else if Cancels(c, moves[0]).Some? then Cancels(c, moves[0])
    else FirstCause(Moved(c, moves[0]), moves[1..])
  }

  lemma {:induction false} MoveCancels(c: Call, m: Move)
    requires Possible(c, m)
    ensures Moved(c, m).shared.cause == if c.shared.cause.Some? then c.shared.cause else Cancels(c, m)
  {
  }

  lemma {:induction false} RunCancels(c: Call, moves: seq<Move>)
    requires Run(c, moves).Some?
    ensures Run(c, moves).value.shared.cause == if c.shared.cause.Some? then c.shared.cause else FirstCause(c, moves)
    decreases |moves|
  {
    hide Cancels, Moved, Possible;
    if moves != [] {
      MoveCancels(c, moves[0]);
      RunCancels(Moved(c, moves[0]), moves[1..]);
    }
  }

  /** Work is canceled exactly if something cancels it; the first cause stays, be it that its parent had ended before. */
  lemma {:induction false} CauseExactly(config: Config, parentEnded: bool, moves: seq<Move>)
    requires Run(Fresh(config, parentEnded), moves).Some?
    ensures Run(Fresh(config, parentEnded), moves).value.shared.cause
      == if parentEnded then Some(ParentEnded) else FirstCause(Fresh(config, parentEnded), moves)
  {
    RunCancels(Fresh(config, parentEnded), moves);
    hide Run, FirstCause;
  }

  // ---- The worker watches ----

  /** The signals end for the worker: their channel is closed, or one of them only closes a finished dashboard. */
  predicate EndsWatch(c: Call, m: Move) {
    && m.Does? && m.event.OfWorker?
    && (m.event.w.ChannelCloses?
        || (m.event.w.Signal? && c.driver.at.Ended? && c.config.tui && c.config.keepOpen && c.shared.cause.None?))
  }

  lemma {:induction false} WorkerLeaves(c: Call, m: Move)
    requires Possible(c, m) && !c.worker.at.Gone? && Moved(c, m).worker.at.Gone?
    ensures EndsWatch(c, m) || Moved(c, m).shared.force || Moved(c, m).main.AsksToStop()
  {
  }

  lemma {:induction false} RunStillAsks(c: Call, moves: seq<Move>)
    requires c.main.AsksToStop() && Run(c, moves).Some?
    ensures Run(c, moves).value.main.AsksToStop()
    decreases |moves|
  {
    if moves != [] {
      assert Moved(c, moves[0]).main.AsksToStop();
      hide Moved, Possible;
      RunStillAsks(Moved(c, moves[0]), moves[1..]);
    }
  }

  lemma {:induction false} RunGoneHasReason(c: Call, moves: seq<Move>)
    requires Run(c, moves).Some? && !c.worker.at.Gone? && Run(c, moves).value.worker.at.Gone?
    ensures var end := Run(c, moves).value; Happens(EndsWatch, c, moves) || end.shared.force || end.main.AsksToStop()
    decreases |moves|
  {
    if moves != [] {
      var next := Moved(c, moves[0]);
      if next.worker.at.Gone? {
        WorkerLeaves(c, moves[0]);
        hide Moved, Possible, EndsWatch;
        ForcedExactly(next, moves[1..]);
        if next.main.AsksToStop() { RunStillAsks(next, moves[1..]); }
      } else {
        hide Moved, Possible, EndsWatch;
        RunGoneHasReason(next, moves[1..]);
      }
    }
  }

  /** In production the worker watches from the start until main asks it to stop, waiting is given up or signals end. */
  lemma {:induction false} WorkerWatches(config: Config, parentEnded: bool, moves: seq<Move>)
    requires config.production && Run(Fresh(config, parentEnded), moves).Some?
    requires Run(Fresh(config, parentEnded), moves).value.worker.at.Gone?
    ensures var end := Run(Fresh(config, parentEnded), moves).value;
      Happens(EndsWatch, Fresh(config, parentEnded), moves) || end.shared.force || end.main.AsksToStop()
  {
    assert !Fresh(config, parentEnded).worker.at.Gone?;
    RunGoneHasReason(Fresh(config, parentEnded), moves);
  }

  // ---- What is canceled before it starts ----

  /** Work canceled, or a terminal ended, before the goroutine has looked at it; or the goroutine is on its way out. */
  predicate Blocked(c: Call) {
    || c.driver.at.Leaving? || c.driver.Over()
    || (c.shared.cause.Some? && (c.driver.at.AwaitReady? || c.driver.at.AwaitLaunch? || c.driver.at.CheckRun?))
    || (&& c.terminal.ended
        && (c.driver.at.AwaitReady? || c.driver.at.AwaitLaunch? || c.driver.at.CheckRun? || c.driver.at.CheckUI?))
  }

  lemma {:induction false} MovedStaysBlocked(c: Call, m: Move)
    requires Blocked(c) && Possible(c, m)
    ensures Blocked(Moved(c, m)) && Moved(c, m).driver.calls == c.driver.calls
  {
  }

  /** What is canceled before the goroutine checks for it is never started. */
  lemma {:induction false} CanceledIsNeverCalled(c: Call, moves: seq<Move>)
    requires Blocked(c) && Run(c, moves).Some?
    ensures Run(c, moves).value.driver.calls == c.driver.calls
    decreases |moves|
  {
    hide Blocked, Moved, Possible;
    if moves != [] {
      MovedStaysBlocked(c, moves[0]);
      CanceledIsNeverCalled(Moved(c, moves[0]), moves[1..]);
    }
  }

  /** Main is past its terminal program. */
  predicate LeftTerminal(c: Call) { !c.main.at.InUI? && !c.main.at.AfterUI? }

  predicate StopsAfterFailure(c: Call) {
    && (c.main.at.InUI? || c.main.at.AfterUI? ==> c.config.tui) && (c.main.at.InUI? ==> !c.terminal.failed)
    && (LeftTerminal(c) && c.terminal.failed ==> c.terminal.ended) && (c.terminal.ended ==> c.shared.cause.Some?)
  }

  lemma {:induction false} MovedStopsAfterFailure(c: Call, m: Move)
    requires StopsAfterFailure(c) && Possible(c, m)
    ensures StopsAfterFailure(Moved(c, m))
  {
  }

  lemma {:induction false} RunStopsAfterFailure(c: Call, moves: seq<Move>)
    requires StopsAfterFailure(c) && Run(c, moves).Some?
    ensures StopsAfterFailure(Run(c, moves).value)
    decreases |moves|
  {
    hide StopsAfterFailure, Moved, Possible;
    if moves != [] {
      MovedStopsAfterFailure(c, moves[0]);
      RunStopsAfterFailure(Moved(c, moves[0]), moves[1..]);
    }
  }

  /** A terminal that failed cancels the work: a driver that has not passed its checks by then is never called. */
  lemma {:induction false} FailureCancelsWork(config: Config, parentEnded: bool, moves: seq<Move>, more: seq<Move>)
    requires Run(Fresh(config, parentEnded), moves).Some?
    requires var c := Run(Fresh(config, parentEnded), moves).value;
      c.terminal.failed && LeftTerminal(c) && Before(c.driver) && !c.driver.at.Announcing? && !c.driver.at.Calling?
      && Run(c, more).Some? && c.driver.calls == 0
    ensures var c := Run(Fresh(config, parentEnded), moves).value;
      c.shared.cause.Some? && c.terminal.ended && Run(c, more).value.driver.calls == 0
  {
    RunStopsAfterFailure(Fresh(config, parentEnded), moves);
    hide Run;
    CanceledIsNeverCalled(Run(Fresh(config, parentEnded), moves).value, more);
  }

  /** In every run, work goes on only as long as its terminal does: a failed output has canceled it. */
  lemma {:induction false} LostTerminalCancels(config: Config, parentEnded: bool, moves: seq<Move>)
    requires Run(Fresh(config, parentEnded), moves).Some?
    ensures var c := Run(Fresh(config, parentEnded), moves).value; c.terminal.ended ==> c.shared.cause.Some?
    ensures moves != [] && moves[|moves| - 1].Does? && moves[|moves| - 1].event == OfTerminal(OutputFails) ==>
      Run(Fresh(config, parentEnded), moves).value.terminal.ended
  {
    RunStopsAfterFailure(Fresh(config, parentEnded), moves);
    if moves != [] {
      var last := moves[|moves| - 1];
      var front := moves[..|moves| - 1];
      assert moves == front + [last];
      hide Next, Enabled, Fresh;
      LastMove(Fresh(config, parentEnded), front, last);
      if last.Does? && last.event == OfTerminal(OutputFails) {
        OutputEndsTerminal(Run(Fresh(config, parentEnded), front).value, last.parentEnded);
      }
    }
  }

  lemma OutputEndsTerminal(c: Call, parentEnded: bool)
    requires Enabled(c, OfTerminal(OutputFails))
    ensures Next(c, OfTerminal(OutputFails), parentEnded).terminal.ended
  {
  }

  lemma {:induction false} LastMove(c: Call, moves: seq<Move>, m: Move)
    requires Run(c, moves + [m]).Some?
    ensures Run(c, moves).Some? && Possible(Run(c, moves).value, m)
    ensures Run(c, moves + [m]).value == Moved(Run(c, moves).value, m)
    decreases |moves|
  {
    hide Possible, Moved;
    if moves == [] {
      assert [] + [m] == [m] && [m][1..] == [];
    } else {
      assert (moves + [m])[1..] == moves[1..] + [m];
      LastMove(Moved(c, moves[0]), moves[1..], m);
    }
  }

  /** The launch page is left with an accepted launch only, unless the work is canceled. */
  lemma LaunchPageWaits(c: Call, m: Move)
    requires Possible(c, m) && c.driver.at.AwaitLaunch? && c.shared.cause.None?
    ensures var at := Moved(c, m).driver.at; at.AwaitLaunch? || (at.CheckRun? && Moved(c, m).driver.validated)
  {
  }

  /** From the start of a shutdown on its deadline runs, until the worker sees that the cleanup is complete. */
  lemma {:induction false} ShutdownIsWatched(c: Call, parentEnded: bool, moves: seq<Move>)
    requires c.worker.at.Watching? && Run(Next(c, OfWorker(SeesShutdown), parentEnded), moves).Some?
    requires forall i :: 0 <= i < |moves| && moves[i].Does? ==> moves[i].event != OfWorker(SeesCleanup)
    ensures Run(Next(c, OfWorker(SeesShutdown), parentEnded), moves).value.worker.timer
  {
    hide Run;
    TimerRuns(Next(c, OfWorker(SeesShutdown), parentEnded), moves);
  }

  lemma {:induction false} TimerRuns(c: Call, moves: seq<Move>)
    requires c.worker.timer && Run(c, moves).Some?
    requires forall i :: 0 <= i < |moves| && moves[i].Does? ==> moves[i].event != OfWorker(SeesCleanup)
    ensures Run(c, moves).value.worker.timer
    decreases |moves|
  {
    if moves != [] {
      assert Moved(c, moves[0]).worker.timer;
      hide Moved, Possible;
      assert forall i :: 0 <= i < |moves[1..]| ==> moves[1..][i] == moves[i + 1];
      TimerRuns(Moved(c, moves[0]), moves[1..]);
    }
  }

  // ---- A canceled call can end ----

  predicate HasEnded(c: Call) { c.main.at.Returned? || c.main.at.FellBack? }

  /** The next event on the way to the end. */
  function Onward(c: Call): Event
    requires !HasEnded(c)
  {
    match c.main.at
    case InUI => if c.terminal.key.NoKey? then OfMain(ProgramReturns(false)) else OfTerminal(KeyContinues)
    case Awaiting =>
      if c.driver.Over() then OfMain(TakesResult)
      else OfDriver(match c.driver.at
                    case AwaitReady | AwaitLaunch => GivesUp
                    case CheckRun | CheckUI => Checks
                    case Announcing => Announces
                    case Calling => Calls
                    case Inside => Returns(false)
                    case Interrupting => CancelsWork
                    case _ => Sends)
    case Joining =>
      if c.worker.at.Gone? then OfMain(Proceeds)
      else OfWorker(if c.worker.at.Watching? then Stops else Continues)
    case _ => OfMain(Proceeds)
  }

  function Distance(c: Call): nat {
    match c.main.at
    case InUI => 80 + (match c.terminal.key case NoKey => 0 case KeyMarks => 2 case KeyCancels => 1)
    case AfterUI => 70
    case Awaiting => 50 + (match c.driver.at
                           case AwaitReady | AwaitLaunch | CheckRun => 8
                           case CheckUI => 7
                           case Announcing => 6
                           case Calling => 5
                           case Interrupting => 4
                           case Inside => 3
                           case Leaving(_) => 2
                           case _ => 0)
    case Stopping => 40
    case Joining => 20 + (match c.worker.at case Cancels => 3 case Forces => 2 case Watching => 1 case Gone => 0)
    case Rechecking => 10
    case Deciding => 5
    case _ => 0
  }

  lemma {:induction false} OnwardIsNearer(c: Call, parentEnded: bool)
    requires c.shared.cause.Some? && !HasEnded(c)
    ensures Enabled(c, Onward(c))
    ensures Distance(Next(c, Onward(c), parentEnded)) < Distance(c)
    ensures Next(c, Onward(c), parentEnded).shared.cause.Some?
  {
  }

  /** Whatever state it is in, a call whose work is canceled can still come to its end: nothing waits for ever. */
  lemma {:induction false} CanceledCanEnd(c: Call, parentEnded: bool)
    requires c.shared.cause.Some?
    ensures exists moves :: Run(c, moves).Some? && HasEnded(Run(c, moves).value)
    decreases Distance(c)
  {
    if HasEnded(c) {
      assert Run(c, []) == Some(c);
    } else {
      OnwardIsNearer(c, parentEnded);
      hide Next, Enabled, Onward, Distance, HasEnded;
      var next := Next(c, Onward(c), parentEnded);
      CanceledCanEnd(next, parentEnded);
      var moves :| Run(next, moves).Some? && HasEnded(Run(next, moves).value);
      var all := [Does(Onward(c), parentEnded)] + moves;
      assert all[1..] == moves && all[0] == Does(Onward(c), parentEnded);
      assert Run(c, all) == Run(next, moves);
    }
  }

  // ---- The calls of an invocation ----

  lemma {:induction false} OneMoreMove(c: Call, moves: seq<Move>, m: Move)
    requires Run(c, moves).Some? && Possible(Run(c, moves).value, m)
    ensures Run(c, moves + [m]) == Some(Moved(Run(c, moves).value, m))
    decreases |moves|
  {
    hide Possible, Moved;
    if moves == [] {
      assert [] + [m] == [m];
      assert [m][1..] == [];
    } else {
      assert (moves + [m])[1..] == moves[1..] + [m];
      OneMoreMove(Moved(c, moves[0]), moves[1..], m);
    }
  }

  /** The call is one that a run leads to. */
  ghost predicate IsReached(c: Call) {
    exists config, parentEnded, moves :: Run(Fresh(config, parentEnded), moves) == Some(c)
  }

  lemma {:induction false} ReachedFurther(c: Call, m: Move)
    requires IsReached(c) && Possible(c, m)
    ensures IsReached(Moved(c, m))
  {
    hide Possible, Moved, Run;
    var config, parentEnded, moves :| Run(Fresh(config, parentEnded), moves) == Some(c);
    OneMoreMove(Fresh(config, parentEnded), moves, m);
  }

  lemma {:induction false} FreshIsReached(config: Config, parentEnded: bool)
    ensures IsReached(Fresh(config, parentEnded))
  {
    assert Run(Fresh(config, parentEnded), []) == Some(Fresh(config, parentEnded));
  }

  /** Both calls of every invocation are reached by such runs. */
  lemma {:induction false} CallsAreRuns(s: Invocation, steps: seq<Step>)
    requires IsReached(s.first) && (s.plain.Some? ==> IsReached(s.plain.value))
    requires Presentation.Run(s, steps).Some?
    ensures var end := Presentation.Run(s, steps).value;
      IsReached(end.first) && (end.plain.Some? ==> IsReached(end.plain.value))
    decreases |steps|
  {
    hide IsReached, Next, Enabled, ParentCanceled, Fresh;
    if steps != [] {
      match steps[0] {
        case First(e) =>
          ReachedFurther(s.first, Does(e, s.parentEnded));
          var config := Next(s.first, e, s.parentEnded).config;
          FreshIsReached(Config.Config(false, false, false, config.production, config.keepOpen), s.parentEnded);
        case Plain(e) => ReachedFurther(s.plain.value, Does(e, s.parentEnded));
        case ParentEnds =>
          ReachedFurther(s.first, Move.ParentEnds);
          if s.plain.Some? { ReachedFurther(s.plain.value, Move.ParentEnds); }
      }
      CallsAreRuns(Presentation.Moved(s, steps[0]), steps[1..]);
    }
  }
}
