/**
 * One command invocation: its driver goroutine, terminal program, signal worker and plain fallback, as they interleave
 * (cmd/upbrr/tui_runtime.go). A channel that one goroutine closes is closed once that goroutine is past the close.
 */
module Presentation {
  import opened Text

  datatype Config = Config(tui: bool, launch: bool, forced: bool, production: bool, keepOpen: bool)

  datatype Cause = UserInterrupt | Unconfirmed | OutputFailed | PresentationFailed | ParentEnded

  // ---- The driver goroutine ----

  /**
   * `error` says that the error it ends with is an unconfirmed shutdown. Interrupting is inside the driver, which has
   * read a cancel key.
   */
  datatype DriverAt =
    | AwaitReady | AwaitLaunch | CheckRun | CheckUI | Announcing | Calling | Inside | Interrupting
    | Leaving(error: bool) | Sent(error: bool) | Ended(error: bool)

  /** `calls` counts how often the goroutine has called the driver. */
  datatype Driver = Driver(at: DriverAt, validated: bool, calls: nat) {
    /** It has sent its result: it can no longer call the driver. */
    predicate Over() { at.Sent? || at.Ended? }

    /** Whether driverStarted is closed. */
    predicate Started() { at.Calling? || calls > 0 }
  }

  datatype DriverEvent = SeesReady | GivesUp | TakesLaunch(valid: bool) | Checks | Announces | Calls
                       | ReadsCancel | CancelsWork | Returns(unconfirmed: bool) | Sends | Closes

  predicate DriverCan(d: Driver, e: DriverEvent, ready: bool, canceled: bool, uiEnded: bool, keys: bool) {
    match e
    case SeesReady => d.at.AwaitReady? && ready
    case GivesUp => (d.at.AwaitReady? && (canceled || uiEnded)) || (d.at.AwaitLaunch? && canceled)
    case TakesLaunch(_) => d.at.AwaitLaunch?
    case Checks => d.at.CheckRun? || d.at.CheckUI?
    case Announces => d.at.Announcing?
    case Calls => d.at.Calling?
    case ReadsCancel => d.at.Inside? && keys
    case CancelsWork => d.at.Interrupting?
    case Returns(_) => d.at.Inside?
    case Sends => d.at.Leaving?
    case Closes => d.at.Sent?
  }

  function DriverNext(d: Driver, e: DriverEvent, launch: bool, canceled: bool, uiEnded: bool): Driver {
    match e
    case SeesReady => d.(at := if launch then AwaitLaunch else CheckRun)
    case GivesUp => d.(at := Leaving(false))
    case TakesLaunch(valid) => if valid then d.(at := CheckRun, validated := true) else d
    case Checks =>
      if d.at.CheckRun? then d.(at := if canceled then Leaving(false) else CheckUI)
      else d.(at := if uiEnded then Leaving(false) else Announcing)
    case Announces => d.(at := Calling)
    case Calls => d.(at := Inside, calls := d.calls + 1)
    case ReadsCancel => d.(at := Interrupting)
    case CancelsWork => d.(at := Inside)
    case Returns(unconfirmed) => d.(at := Leaving(unconfirmed))
    case Sends => d.(at := Sent(d.at.Leaving? && d.at.error))
    case Closes => d.(at := Ended(d.at.Sent? && d.at.error))
  }

  // ---- What the threads share ----

  /** The cause of the canceled work, the remembered interrupt and the force channel. */
  datatype Shared = Shared(cause: Option<Cause>, interrupted: bool, force: bool) {
    /** Cancellation keeps its first cause. */
    function Canceled(c: Cause): Shared { if cause.Some? then this else this.(cause := Some(c)) }
  }

  function DriverShares(e: DriverEvent, s: Shared): Shared {
    match e
    case ReadsCancel => s.(interrupted := true)
    case CancelsWork => s.Canceled(UserInterrupt)
    case _ => s
  }

  // ---- The terminal program ----

  /** The handler of the cancel key: force if interrupted before, remember the interrupt, cancel the work. */
  datatype KeyAt = NoKey | KeyMarks | KeyCancels

  /** `ended`: the context of the terminal is canceled; `failed`: the program returned an error. */
  datatype Terminal = Terminal(key: KeyAt, ready: bool, ended: bool, failed: bool)

  datatype TerminalEvent = ModelStarts | KeyPressed | KeyContinues | OutputFails

  predicate TerminalCan(t: Terminal, e: TerminalEvent) {
    match e
    case ModelStarts => !t.ready
    case KeyPressed => t.key.NoKey?
    case KeyContinues => !t.key.NoKey?
    case OutputFails => true
  }

  function TerminalNext(t: Terminal, e: TerminalEvent): Terminal {
    match e
    case ModelStarts => t.(ready := true)
    case KeyPressed => t.(key := KeyMarks)
    case KeyContinues => t.(key := if t.key.KeyMarks? then KeyCancels else NoKey)
    case OutputFails => t.(ended := true)
  }

  function TerminalShares(t: Terminal, e: TerminalEvent, production: bool, s: Shared): Shared {
    match e
    case ModelStarts => s
    case KeyPressed => s.(force := s.force || (production && s.interrupted))
    case KeyContinues => if t.key.KeyMarks? then s.(interrupted := true) else s.Canceled(UserInterrupt)
    case OutputFails => s.Canceled(OutputFailed)
  }

  // ---- The signal worker ----

  datatype WorkerAt = Watching | Cancels | Forces | Gone

  datatype Worker = Worker(at: WorkerAt, canceled: bool, timer: bool)

  datatype WorkerEvent = Signal | ChannelCloses | Continues | SeesCancel | SeesShutdown | SeesCleanup | Deadline | Stops

  predicate WorkerCan(w: Worker, e: WorkerEvent, canceled: bool, done: bool, stop: bool) {
    match e
    case Continues => w.at.Cancels? || w.at.Forces?
    case SeesCancel => w.at.Watching? && canceled && !w.canceled
    case SeesCleanup => w.at.Watching? && done
    case Deadline => w.at.Watching? && w.timer
    case Stops => w.at.Watching? && stop
    case _ => w.at.Watching?
  }

  /** `closes`: the driver is done, and the signal only closes a terminal that is kept open. */
  function WorkerNext(w: Worker, e: WorkerEvent, closes: bool): Worker {
    match e
    case Signal => w.(at := if closes then Gone else Cancels)
    case ChannelCloses => w.(at := Gone)
    case Continues => w.(at := if w.at.Cancels? then Forces else if w.canceled then Gone else Watching)
    case SeesCancel => w.(canceled := true, timer := true)
    case SeesShutdown => w.(timer := true)
    case SeesCleanup => w.(timer := w.timer && w.canceled)
    case Deadline => w.(at := Gone)
    case Stops => w.(at := Gone)
  }

  function WorkerShares(w: Worker, e: WorkerEvent, closes: bool, s: Shared): Shared {
    match e
    case Signal => if closes then s else s.(interrupted := true)
    case Continues =>
      if w.at.Cancels? then s.Canceled(UserInterrupt) else if w.canceled then s.(force := true) else s
    case Deadline => s.Canceled(Unconfirmed).(force := true)
    case _ => s
  }

  // ---- Main ----

  datatype MainAt =
    InUI | AfterUI | Awaiting | Stopping | Joining | Rechecking | Deciding | FellBack | Returned(interrupt: bool)

  /** `unconfirmed`: the result says that shutdown could not be confirmed. */
  datatype Main = Main(at: MainAt, unconfirmed: bool) {
    predicate HasResult() { at.Stopping? || at.Joining? || HasJoined() }
    predicate HasJoined() { at.Rechecking? || HasRechecked() }
    predicate HasRechecked() { at.Deciding? || at.FellBack? || at.Returned? }
    predicate AsksToStop() { at.Joining? || HasJoined() }
  }

  datatype MainEvent = ProgramReturns(failed: bool) | TakesResult | TakesForce | Proceeds

  /** One call of runCLIPresentation. */
  datatype Call = Call(config: Config, driver: Driver, terminal: Terminal, worker: Worker, main: Main, shared: Shared)

  predicate MainCan(c: Call, e: MainEvent) {
    match e
    case ProgramReturns(_) => c.main.at.InUI? && c.terminal.key.NoKey?
    case TakesResult => c.main.at.Awaiting? && c.driver.Over()
    case TakesForce => c.main.at.Awaiting? && c.shared.force
    case Proceeds => c.main.at.AfterUI? || c.main.at.Stopping? || (c.main.at.Joining? && c.worker.at.Gone?)
                     || c.main.at.Rechecking? || c.main.at.Deciding?
  }

  predicate FallbackAllowed(c: Call, parentEnded: bool) {
    && !c.config.forced && !parentEnded
    && c.shared.cause != Some(UserInterrupt) && c.shared.cause != Some(Unconfirmed)
  }

  predicate FallsBack(c: Call, parentEnded: bool) {
    && c.config.tui && c.terminal.failed && !c.shared.interrupted && !c.main.unconfirmed
    && FallbackAllowed(c, parentEnded) && !c.driver.Started()
  }

  function MainNext(c: Call, e: MainEvent, parentEnded: bool): Call
    requires MainCan(c, e)
  {
    match e
    case ProgramReturns(failed) => c.(main := c.main.(at := AfterUI), terminal := c.terminal.(failed := failed))
    case TakesResult => c.(main := Main.Main(Stopping, c.driver.at.error))
    case TakesForce => c.(main := Main.Main(Stopping, true))
    case Proceeds =>
      match c.main.at
      case AfterUI =>
        if c.terminal.failed then
          c.(main := c.main.(at := Awaiting), terminal := c.terminal.(ended := true),
             shared := c.shared.Canceled(PresentationFailed))
        else c.(main := c.main.(at := Awaiting))
      case Stopping => c.(main := c.main.(at := Joining))
      case Joining => c.(main := c.main.(at := Rechecking))
      case Rechecking => c.(main := Main.Main(Deciding, c.main.unconfirmed || c.shared.force))
      case _ =>
        if FallsBack(c, parentEnded) then c.(main := c.main.(at := FellBack))
        else c.(main := c.main.(at := Returned(c.shared.interrupted || c.shared.cause == Some(UserInterrupt))))
  }

  // ---- One call ----

  function Fresh(config: Config, parentEnded: bool): Call {
    Call(config, Driver.Driver(if config.tui then AwaitReady else CheckRun, false, 0),
         Terminal.Terminal(NoKey, false, false, false),
         Worker.Worker(if config.production then Watching else Gone, false, false),
         Main.Main(if config.tui then InUI else Awaiting, false),
         Shared.Shared(if parentEnded then Some(ParentEnded) else None, false, false))
  }

  datatype Event =
    OfDriver(d: DriverEvent) | OfTerminal(t: TerminalEvent) | OfWorker(w: WorkerEvent) | OfMain(m: MainEvent)

  /** Only the plain production call wraps its input so that a password prompt sees the cancel key. */
  predicate ReadsKeys(config: Config) { config.production && !config.tui }

  predicate Closes(c: Call) { c.driver.at.Ended? && c.config.tui && c.config.keepOpen && c.shared.cause.None? }

  predicate Enabled(c: Call, e: Event) {
    match e
    case OfDriver(d) => DriverCan(c.driver, d, c.terminal.ready, c.shared.cause.Some?, c.terminal.ended,
      ReadsKeys(c.config))
    case OfTerminal(t) => c.main.at.InUI? && TerminalCan(c.terminal, t)
    case OfWorker(w) => WorkerCan(c.worker, w, c.shared.cause.Some?, c.driver.at.Ended?, c.main.AsksToStop())
    case OfMain(m) => MainCan(c, m)
  }

  function Next(c: Call, e: Event, parentEnded: bool): Call
    requires Enabled(c, e)
  {
    match e
    case OfDriver(d) =>
      c.(driver := DriverNext(c.driver, d, c.config.launch, c.shared.cause.Some?, c.terminal.ended),
         shared := DriverShares(d, c.shared))
    case OfTerminal(t) =>
      c.(terminal := TerminalNext(c.terminal, t),
         shared := TerminalShares(c.terminal, t, c.config.production, c.shared))
    case OfWorker(w) =>
      c.(worker := WorkerNext(c.worker, w, Closes(c)),
         shared := WorkerShares(c.worker, w, Closes(c), c.shared))
    case OfMain(m) => MainNext(c, m, parentEnded)
  }

  // ---- What every state of a call satisfies ----

  /** The goroutine is before the call of the driver. */
  predicate Before(d: Driver) {
    d.at.AwaitReady? || d.at.AwaitLaunch? || d.at.CheckRun? || d.at.CheckUI? || d.at.Announcing? || d.at.Calling?
  }

  /** The driver is called once, when the terminal is ready and the edited launch accepted. */
  predicate CallsOnce(config: Config, d: Driver, ready: bool) {
    && d.calls <= 1 && (Before(d) ==> d.calls == 0) && (d.at.Inside? || d.at.Interrupting? ==> d.calls == 1)
    && (config.tui && (d.calls > 0 || (Before(d) && !d.at.AwaitReady?)) ==> ready)
    && (config.tui && config.launch && (d.calls > 0 || (Before(d) && !d.at.AwaitReady? && !d.at.AwaitLaunch?)) ==>
      d.validated)
  }

  lemma ReadyStays(config: Config, d: Driver, ready: bool)
    requires CallsOnce(config, d, ready)
    ensures CallsOnce(config, d, true)
  {
  }

  /** No interrupt is forgotten. */
  predicate Remembers(driver: DriverAt, key: KeyAt, worker: WorkerAt, s: Shared) {
    driver.Interrupting? || key.KeyCancels? || worker.Cancels? || worker.Forces? || s.cause == Some(UserInterrupt) ==>
      s.interrupted
  }

  /** What the exit status says of interrupts. */
  predicate Reports(main: Main, s: Shared) {
    main.at.Returned? ==>
      && (main.at.interrupt ==> s.interrupted)
      && (!main.unconfirmed ==> main.at.interrupt == s.interrupted)
  }

  /** What main has waited for. */
  predicate Waited(c: Call) {
    && (c.main.HasResult() ==> c.driver.Over() || c.shared.force)
    && (c.main.HasJoined() ==> c.worker.at.Gone?)
    && (c.main.HasRechecked() && c.shared.force ==> c.main.unconfirmed)
    && (!c.main.at.InUI? ==> c.terminal.key.NoKey?)
    && (c.main.at.FellBack? ==> c.config.tui && !c.main.unconfirmed && !c.driver.Started() && !c.shared.interrupted)
  }

  predicate Sound(c: Call) {
    && CallsOnce(c.config, c.driver, c.terminal.ready)
    && Remembers(c.driver.at, c.terminal.key, c.worker.at, c.shared)
    && Reports(c.main, c.shared)
    && Waited(c)
  }

  lemma DriverCallsOnce(config: Config, d: Driver, e: DriverEvent, ready: bool, canceled: bool, uiEnded: bool)
    requires CallsOnce(config, d, ready) && DriverCan(d, e, ready, canceled, uiEnded, ReadsKeys(config))
    ensures CallsOnce(config, DriverNext(d, e, config.launch, canceled, uiEnded), ready)
    ensures var n := DriverNext(d, e, config.launch, canceled, uiEnded);
      d.Over() ==> n.Over() && n.Started() == d.Started()
  {
  }

  lemma DriverRemembers(d: Driver, e: DriverEvent, launch: bool, ready: bool, canceled: bool, uiEnded: bool, keys: bool,
          key: KeyAt, worker: WorkerAt, s: Shared)
    requires Remembers(d.at, key, worker, s) && DriverCan(d, e, ready, canceled, uiEnded, keys)
    ensures Remembers(DriverNext(d, e, launch, canceled, uiEnded).at, key, worker, DriverShares(e, s))
    ensures DriverShares(e, s).force == s.force && (s.interrupted ==> DriverShares(e, s).interrupted)
    ensures d.Over() ==> DriverShares(e, s) == s
  {
  }

  lemma TerminalRemembers(t: Terminal, e: TerminalEvent, production: bool, driver: DriverAt, worker: WorkerAt,
          s: Shared)
    requires Remembers(driver, t.key, worker, s) && TerminalCan(t, e)
    ensures Remembers(driver, TerminalNext(t, e).key, worker, TerminalShares(t, e, production, s))
    ensures TerminalNext(t, e).ready == (t.ready || e.ModelStarts?)
  {
  }

  lemma WorkerRemembers(driver: DriverAt, key: KeyAt, w: Worker, e: WorkerEvent, closes: bool, s: Shared)
    requires Remembers(driver, key, w.at, s) && !w.at.Gone?
    ensures Remembers(driver, key, WorkerNext(w, e, closes).at, WorkerShares(w, e, closes, s))
    ensures s.force ==> WorkerShares(w, e, closes, s).force
  {
  }

  lemma {:induction false} MainKeepsSound(c: Call, e: MainEvent, parentEnded: bool)
    requires Sound(c) && MainCan(c, e)
    ensures Sound(MainNext(c, e, parentEnded)) && MainNext(c, e, parentEnded).config == c.config
    ensures MainNext(c, e, parentEnded).main.at.FellBack? ==> c.config.tui
  {
    hide CallsOnce;
  }

  lemma {:induction false} NextKeepsSound(c: Call, e: Event, parentEnded: bool)
    requires Sound(c) && Enabled(c, e)
    ensures Sound(Next(c, e, parentEnded)) && Next(c, e, parentEnded).config == c.config
    ensures c.main.at.FellBack? ==> Next(c, e, parentEnded).main.at.FellBack?
    ensures !c.config.tui && !c.main.at.FellBack? ==> !Next(c, e, parentEnded).main.at.FellBack?
  {
    hide DriverNext, DriverShares, TerminalNext, TerminalShares, WorkerNext, WorkerShares, MainNext, CallsOnce,
      Remembers, DriverCan, TerminalCan;
    match e
    case OfDriver(d) =>
      DriverCallsOnce(c.config, c.driver, d, c.terminal.ready, c.shared.cause.Some?, c.terminal.ended);
      DriverRemembers(c.driver, d, c.config.launch, c.terminal.ready, c.shared.cause.Some?, c.terminal.ended,
        ReadsKeys(c.config), c.terminal.key, c.worker.at, c.shared);
    case OfTerminal(t) =>
      ReadyStays(c.config, c.driver, c.terminal.ready);
      TerminalRemembers(c.terminal, t, c.config.production, c.driver.at, c.worker.at, c.shared);
    case OfWorker(w) =>
      WorkerRemembers(c.driver.at, c.terminal.key, c.worker, w, Closes(c), c.shared);
    case OfMain(m) => MainKeepsSound(c, m, parentEnded);
  }

  // ---- The invocation ----

  /** The first call and, once it falls back, the plain call that takes over. */
  datatype Invocation = Invocation(first: Call, plain: Option<Call>, parentEnded: bool)

  datatype Step = First(event: Event) | Plain(event: Event) | ParentEnds

  predicate Possible(s: Invocation, step: Step) {
    match step
    case First(e) => Enabled(s.first, e)
    case Plain(e) => s.plain.Some? && Enabled(s.plain.value, e)
    case ParentEnds => true
  }

  function ParentCanceled(c: Call): Call { c.(shared := c.shared.Canceled(ParentEnded)) }

  function Moved(s: Invocation, step: Step): Invocation
    requires Possible(s, step)
  {
    match step
    case First(e) =>
      var c := Next(s.first, e, s.parentEnded);
      if c.main.at.FellBack? && !s.first.main.at.FellBack? then
        s.(first := c, plain := Some(Fresh(Config.Config(false, false, false, c.config.production, c.config.keepOpen),
          s.parentEnded)))
      else s.(first := c)
    case Plain(e) => s.(plain := Some(Next(s.plain.value, e, s.parentEnded)))
    case ParentEnds =>
      Invocation(ParentCanceled(s.first), if s.plain.Some? then Some(ParentCanceled(s.plain.value)) else None, true)
  }

  function Run(s: Invocation, steps: seq<Step>): Option<Invocation>
    decreases |steps|
  {
    if steps == [] then Some(s)
    else if Possible(s, steps[0]) then Run(Moved(s, steps[0]), steps[1..])
    else None
  }

  function Start(config: Config): Invocation { Invocation(Fresh(config, false), None, false) }

  ghost predicate Invariant(s: Invocation) {
    && Sound(s.first) && (s.plain.Some? <==> s.first.main.at.FellBack?)
    && (s.plain.Some? ==> Sound(s.plain.value) && !s.plain.value.config.tui && !s.plain.value.main.at.FellBack?)
  }

  lemma {:induction false} ParentKeepsSound(c: Call)
    requires Sound(c)
    ensures Sound(ParentCanceled(c)) && ParentCanceled(c).main == c.main && ParentCanceled(c).config == c.config
  {
    hide CallsOnce;
  }

  lemma FreshIsSound(config: Config, parentEnded: bool)
    ensures Sound(Fresh(config, parentEnded)) && !Fresh(config, parentEnded).main.at.FellBack?
      && Fresh(config, parentEnded).config == config
  {
  }

  lemma {:induction false} MovedKeepsInvariant(s: Invocation, step: Step)
    requires Invariant(s) && Possible(s, step)
    ensures Invariant(Moved(s, step))
  {
    hide Next, Enabled, Sound, ParentCanceled, Fresh;
    match step
    case First(e) =>
      NextKeepsSound(s.first, e, s.parentEnded);
      var config := Next(s.first, e, s.parentEnded).config;
      FreshIsSound(Config.Config(false, false, false, config.production, config.keepOpen), s.parentEnded);
    case Plain(e) => NextKeepsSound(s.plain.value, e, s.parentEnded);
    case ParentEnds =>
      ParentKeepsSound(s.first);
      if s.plain.Some? {
        ParentKeepsSound(s.plain.value);
      }
  }

  lemma {:induction false} RunKeepsInvariant(s: Invocation, steps: seq<Step>)
    requires Invariant(s) && Run(s, steps).Some?
    ensures Invariant(Run(s, steps).value)
    decreases |steps|
  {
    hide Invariant, Moved, Possible;
    if steps != [] {
      MovedKeepsInvariant(s, steps[0]);
      RunKeepsInvariant(Moved(s, steps[0]), steps[1..]);
    }
  }

  lemma {:induction false} StartKeepsInvariant(config: Config, steps: seq<Step>)
    requires Run(Start(config), steps).Some?
    ensures Invariant(Run(Start(config), steps).value)
  {
    hide Run, Sound, Fresh;
    FreshIsSound(config, false);
    RunKeepsInvariant(Start(config), steps);
  }

  // ---- The main results, over all interleavings ----

  /** The call whose result the invocation returns. */
  function Last(s: Invocation): Call { if s.plain.Some? then s.plain.value else s.first }

  /** The driver is called at most once, and from the terminal only when it is ready and the launch accepted. */
  lemma {:induction false} CalledAtMostOnce(config: Config, steps: seq<Step>)
    requires Run(Start(config), steps).Some?
    ensures var s := Run(Start(config), steps).value;
      && s.first.driver.calls + (if s.plain.Some? then s.plain.value.driver.calls else 0) <= 1
      && (s.first.driver.calls == 1 && s.first.config.tui ==>
            s.first.terminal.ready && (s.first.config.launch ==> s.first.driver.validated))
  {
    hide Run;
    StartKeepsInvariant(config, steps);
  }

  /**
   * There is a plain call only after the first goroutine ended without a call, unforced and uninterrupted; and this
   * stays so.
   */
  lemma {:induction false} FallbackOnlyBeforeTheCall(config: Config, steps: seq<Step>)
    requires Run(Start(config), steps).Some? && Run(Start(config), steps).value.plain.Some?
    ensures var c := Run(Start(config), steps).value.first;
      && c.driver.Over() && !c.driver.Started() && c.driver.calls == 0
      && !c.shared.force && !c.shared.interrupted && c.worker.at.Gone?
  {
    hide Run;
    StartKeepsInvariant(config, steps);
  }

  /**
   * The command ends after its driver, unless its result says that shutdown is unconfirmed; and it reports every
   * interrupt.
   */
  lemma {:induction false} NoSilentEnd(config: Config, steps: seq<Step>)
    requires Run(Start(config), steps).Some? && Last(Run(Start(config), steps).value).main.at.Returned?
    ensures var c := Last(Run(Start(config), steps).value);
      && (c.driver.Over() || c.main.unconfirmed)
      && (c.shared.force ==> c.main.unconfirmed)
      && (c.main.at.interrupt ==> c.shared.interrupted)
      && (!c.main.unconfirmed ==> c.main.at.interrupt == c.shared.interrupted)
  {
    hide Run;
    StartKeepsInvariant(config, steps);
  }
}
