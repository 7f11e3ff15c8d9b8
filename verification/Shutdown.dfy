/** The shutdown protocol as a state machine: the SIGTERM handler, the watcher thread, PID 1's
    watchdog, the wipe section both of the last two can enter, and the deadline thread. One
    action is one atomic step of one of them, or of the world around them; a run is any
    interleaving of enabled actions. */
module Shutdown {
  import opened Wrappers

  const WIPE_DEADLINE: nat := 20
  const SIGTERM_GRACE: nat := 10
  const KILL_SETTLE_TIMEOUT: nat := 2
  const PIPE_CAPACITY: nat := 65536

  // ----- threads -----------------------------------------------------------------------------

  /** One invocation of `on_sigterm`; `FdLoaded(true)` found the pipe published. */
  datatype Handler = Entered | FlagStored | FdLoaded(published: bool) | Finished(wrote: bool)

  /** `kill_wipe_and_power_off`, step by step. */
  datatype Tail = AtSwap | AtArm | AtKill | Settling(until: nat) | AtScrub | AtPowerOff

  datatype Watcher =
    | NotSpawned
    | SettingUp
    | Publishing
    | Checking
    | AddingDevices
    | InEpoll
    | Polling
    | Triggered
    | Flagged
    | InGrace(until: nat)
    | WatcherTail(tail: Tail)

  /** What `wait` gave PID 1. */
  datatype WaitResult = AppPid | OtherPid | NoChildren | Interrupted

  datatype Main =
    | Booting
    | Waiting
    | Returned(result: WaitResult)
    | Deciding(result: WaitResult, flag: bool)
    | FatalShutdown
    | MainTail(tail: Tail)

  // ----- the rest of the state ---------------------------------------------------------------

  datatype Cause = OnItsOwn | ByTerm | ByKill

  datatype App = NotStarted | Running | Zombie(cause: Cause) | Reaped(cause: Cause)

  datatype OffBy = Completed | SecondEntry | NotArmed | DeadlineExpired

  datatype Event = DeadlineArmed | KilledAll | Settled | Scrubbed

  datatype Thread = PidOne | TheWatcher

  datatype State = State(
    armed: bool,                // the SIGTERM handler is installed
    received: bool,             // SIGTERM_RECEIVED
    published: bool,            // SIGTERM_PIPE_WRITE_FD holds a descriptor
    pipe: nat,                  // unread bytes; nobody ever reads them
    shuttingDown: bool,         // SHUTDOWN_IN_PROGRESS
    wipeStarted: bool,          // WIPE_STARTED
    handlers: seq<Handler>,
    watcher: Watcher,
    main: Main,
    app: App,
    others: nat,                // other children of PID 1, alive or zombie
    termSent: bool,
    killSent: bool,
    deadline: Option<nat>,      // when the deadline thread's sleep ends
    now: nat,
    off: Option<OffBy>,
    offAt: nat,
    log: seq<Event>
  )

  const INITIAL: State := State(
    false, false, false, 0, false, false, [], NotSpawned, Booting, NotStarted, 0, false, false, None, 0, None, 0, [])

  /** PID 1 up to the point where it starts supervising. */
  datatype BootStep = InstallHandler | BootFails | StartApp | SpawnWatcher(ok: bool)

  datatype SignalStep = Arrives | Advances(i: nat)

  datatype WatchStep =
    | SetUp(ok: bool) | Publish | CheckReceived | AddDevices(ok: bool)
    | EpollReadable | PowerButton | SpuriousWakeup | PollReceived
    | StoreShutdown | SendTerm | EndGrace

  datatype DogStep = WaitReturns(result: WaitResult) | LoadFlag | Decide | StoreFatal

  datatype WipeStep = Swap | Arm(ok: bool) | KillAll | ReapSome | ReapOther | EndSettle | Scrub | FinalPowerOff

  datatype WorldStep = AppExits(cause: Cause) | OtherAppears | DeadlineFires | Tick

  datatype Action =
    | Boot(boot: BootStep)
    | Signal(signal: SignalStep)
    | Watch(watch: WatchStep)
    | Dog(dog: DogStep)
    | Wipe(t: Thread, wipe: WipeStep)
    | World(world: WorldStep)

  // ----- the tail, for whichever thread runs it ----------------------------------------------

  function TailOf(s: State, t: Thread): Option<Tail> {
    match t
    case PidOne => if s.main.MainTail? then Some(s.main.tail) else None
    case TheWatcher => if s.watcher.WatcherTail? then Some(s.watcher.tail) else None
  }

  function WithTail(s: State, t: Thread, tail: Tail): State {
    s.(main := if t.PidOne? then MainTail(tail) else s.main,
       watcher := if t.TheWatcher? then WatcherTail(tail) else s.watcher)
  }

  predicate AppGone(s: State) {
    s.app.NotStarted? || s.app.Reaped?
  }

  predicate EveryoneGone(s: State) {
    AppGone(s) && s.others == 0
  }

  predicate DeadlineDue(s: State) {
    s.deadline.Some? && s.now >= s.deadline.value
  }

  function ReapApp(a: App): App {
    if a.Zombie? then Reaped(a.cause) else a
  }

  // ----- when each step can happen, and what it does -----------------------------------------

  predicate BootEnabled(s: State, b: BootStep) {
    s.main.Booting? &&
    match b
    case InstallHandler => !s.armed
    case BootFails => true
    case StartApp => s.armed && s.app.NotStarted?
    case SpawnWatcher(_) => s.armed && !s.app.NotStarted?
  }

  function ApplyBoot(s: State, b: BootStep): State {
    s.(armed := s.armed || b.InstallHandler?,
       app := if b.StartApp? then Running else s.app,
       watcher := if b == SpawnWatcher(true) then SettingUp else s.watcher,
       main := if b == SpawnWatcher(true) then Waiting
               else if b == SpawnWatcher(false) || b.BootFails? then FatalShutdown
               else s.main)
  }

  predicate SignalEnabled(s: State, g: SignalStep) {
    match g
    case Arrives => s.armed
    case Advances(i) => i < |s.handlers| && !s.handlers[i].Finished?
  }

  function NextHandler(h: Handler, published: bool): Handler {
    match h
    case Entered => FlagStored
    case FlagStored => FdLoaded(published)
    case FdLoaded(found) => Finished(found)
    case Finished(_) => h
  }

  /** The write end is non-blocking: against a full pipe the write fails, and the pipe stays readable. */
  function AfterWrite(h: Handler, pipe: nat): nat {
    if h == FdLoaded(true) && pipe < PIPE_CAPACITY then pipe + 1 else pipe
  }

  function ApplySignal(s: State, g: SignalStep): State
    requires SignalEnabled(s, g)
  {
    match g
    case Arrives => s.(handlers := s.handlers + [Entered])
    case Advances(i) =>
      var h := s.handlers[i];
      s.(received := s.received || h.Entered?,
         pipe := AfterWrite(h, s.pipe),
         handlers := s.handlers[i := NextHandler(h, s.published)])
  }

  predicate WatchEnabled(s: State, w: WatchStep) {
    match w
    case SetUp(_) => s.watcher.SettingUp?
    case Publish => s.watcher.Publishing?
    case CheckReceived => s.watcher.Checking?
    case AddDevices(_) => s.watcher.AddingDevices?
    case EpollReadable => s.watcher.InEpoll? && s.pipe > 0
    case PowerButton => s.watcher.InEpoll? || s.watcher.Polling?
    case SpuriousWakeup => s.watcher.InEpoll? || (s.watcher.Polling? && !s.received)
    case PollReceived => s.watcher.Polling? && s.received
    case StoreShutdown => s.watcher.Triggered?
    case SendTerm => s.watcher.Flagged?
    case EndGrace => s.watcher.InGrace? && (AppGone(s) || s.now >= s.watcher.until)
  }

  function NextWatcher(s: State, w: WatchStep): Watcher {
    match w
    case SetUp(ok) => if ok then Publishing else Polling
    case Publish => Checking
    case CheckReceived => if s.received then Triggered else AddingDevices
    case AddDevices(ok) => if ok then InEpoll else Polling
    case EpollReadable => Triggered
    case PowerButton => Triggered
    case SpuriousWakeup => s.watcher
    case PollReceived => Triggered
    case StoreShutdown => Flagged
    case SendTerm => InGrace(s.now + SIGTERM_GRACE)
    case EndGrace => WatcherTail(AtSwap)
  }

  function ApplyWatch(s: State, w: WatchStep): State {
    s.(watcher := NextWatcher(s, w),
       published := s.published || w.Publish?,
       shuttingDown := s.shuttingDown || w.StoreShutdown?,
       termSent := s.termSent || w.SendTerm?)
  }

  predicate WaitCanReturn(s: State, result: WaitResult) {
    match result
    case AppPid => s.app.Zombie?
    case OtherPid => s.others > 0
    case NoChildren => EveryoneGone(s)
    case Interrupted => true
  }

  /** A compromise: nobody asked for a shutdown, and the app, or every child, is gone. */
  predicate Compromised(result: WaitResult, flag: bool) {
    !flag && (result.AppPid? || result.NoChildren?)
  }

  predicate DogEnabled(s: State, d: DogStep) {
    match d
    case WaitReturns(result) => s.main.Waiting? && WaitCanReturn(s, result)
    case LoadFlag => s.main.Returned?
    case Decide => s.main.Deciding?
    case StoreFatal => s.main.FatalShutdown?
  }

  function NextMain(s: State, d: DogStep): Main
    requires DogEnabled(s, d)
  {
    match d
    case WaitReturns(result) => Returned(result)
    case LoadFlag => Deciding(s.main.result, s.shuttingDown)
    case Decide => if Compromised(s.main.result, s.main.flag) then FatalShutdown else Waiting
    case StoreFatal => MainTail(AtSwap)
  }

  function ApplyDog(s: State, d: DogStep): State
    requires DogEnabled(s, d)
  {
    s.(main := NextMain(s, d),
       app := if d == WaitReturns(AppPid) then ReapApp(s.app) else s.app,
       others := if d == WaitReturns(OtherPid) then s.others - 1 else s.others,
       shuttingDown := s.shuttingDown || d.StoreFatal?)
  }

  predicate TailEnabled(s: State, tail: Tail, w: WipeStep) {
    match w
    case Swap => tail.AtSwap?
    case Arm(_) => tail.AtArm?
    case KillAll => tail.AtKill?
    case ReapSome => tail.Settling?
    case ReapOther => tail.Settling? && s.others > 0
    case EndSettle => tail.Settling? && (EveryoneGone(s) || s.now >= tail.until)
    case Scrub => tail.AtScrub?
    case FinalPowerOff => tail.AtPowerOff?
  }

  predicate WipeEnabled(s: State, t: Thread, w: WipeStep) {
    TailOf(s, t).Some? && TailEnabled(s, TailOf(s, t).value, w)
  }

  /** The thread's next program point; a step that powers off leaves it where it is. */
  function NextTail(tail: Tail, w: WipeStep, wipeStarted: bool, now: nat): Tail {
    match w
    case Swap => if wipeStarted then tail else AtArm
    case Arm(ok) => if ok then AtKill else tail
    case KillAll => Settling(now + KILL_SETTLE_TIMEOUT)
    case EndSettle => AtScrub
    case Scrub => AtPowerOff
    case _ => tail
  }

  /** Whether the step powers the machine off, and why. */
  function WipeOff(w: WipeStep, wipeStarted: bool): Option<OffBy> {
    match w
    case Swap => if wipeStarted then Some(SecondEntry) else None
    case Arm(ok) => if ok then None else Some(NotArmed)
    case FinalPowerOff => Some(Completed)
    case _ => None
  }

  function WipeLog(w: WipeStep): seq<Event> {
    match w
    case Arm(ok) => if ok then [DeadlineArmed] else []
    case KillAll => [KilledAll]
    case EndSettle => [Settled]
    case Scrub => [Scrubbed]
    case _ => []
  }

  /** What the step does to everything but the thread's own program point. */
  function WipeEffect(s: State, w: WipeStep): State
    requires w.ReapOther? ==> s.others > 0
  {
    s.(wipeStarted := s.wipeStarted || w.Swap?,
       deadline := if w == Arm(true) then Some(s.now + WIPE_DEADLINE) else s.deadline,
       killSent := s.killSent || w.KillAll?,
       app := if w.ReapSome? then ReapApp(s.app) else s.app,
       others := if w.ReapOther? then s.others - 1 else s.others,
       log := s.log + WipeLog(w),
       off := WipeOff(w, s.wipeStarted),
       offAt := if WipeOff(w, s.wipeStarted).Some? then s.now else s.offAt)
  }

  function ApplyWipe(s: State, t: Thread, w: WipeStep): State
    requires WipeEnabled(s, t, w)
  {
    WithTail(WipeEffect(s, w), t, NextTail(TailOf(s, t).value, w, s.wipeStarted, s.now))
  }

  predicate WorldEnabled(s: State, x: WorldStep) {
    match x
    case AppExits(OnItsOwn) => s.app.Running?
    case AppExits(ByTerm) => s.app.Running? && s.termSent
    case AppExits(ByKill) => s.app.Running? && s.killSent
    case OtherAppears => true
    case DeadlineFires => DeadlineDue(s)
    case Tick => !DeadlineDue(s)  // a thread whose sleep is over runs before more time passes
  }

  function ApplyWorld(s: State, x: WorldStep): State {
    s.(app := if x.AppExits? then Zombie(x.cause) else s.app,
       others := if x.OtherAppears? then s.others + 1 else s.others,
       now := if x.Tick? then s.now + 1 else s.now,
       off := if x.DeadlineFires? then Some(DeadlineExpired) else s.off,
       offAt := if x.DeadlineFires? then s.now else s.offAt)
  }

  predicate Enabled(s: State, a: Action) {
    s.off.None? &&
    match a
    case Boot(b) => BootEnabled(s, b)
    case Signal(g) => SignalEnabled(s, g)
    case Watch(w) => WatchEnabled(s, w)
    case Dog(d) => DogEnabled(s, d)
    case Wipe(t, w) => WipeEnabled(s, t, w)
    case World(x) => WorldEnabled(s, x)
  }

  function Apply(s: State, a: Action): State
    requires Enabled(s, a)
  {
    match a
    case Boot(b) => ApplyBoot(s, b)
    case Signal(g) => ApplySignal(s, g)
    case Watch(w) => ApplyWatch(s, w)
    case Dog(d) => ApplyDog(s, d)
    case Wipe(t, w) => ApplyWipe(s, t, w)
    case World(x) => ApplyWorld(s, x)
  }

  /** Where a sequence of actions leads, when each is enabled in its turn. */
  function Run(acts: seq<Action>): Option<State>
    decreases |acts|
  {
    if acts == [] then Some(INITIAL)
    else
      match Run(acts[..|acts| - 1])
      case None => None
      case Some(s) => if Enabled(s, acts[|acts| - 1]) then Some(Apply(s, acts[|acts| - 1])) else None
  }

  // ----- the invariant -----------------------------------------------------------------------

  /** Past the interlock: from arming the deadline to the final power-off. */
  predicate Inside(tail: Option<Tail>) {
    tail.Some? && !tail.value.AtSwap?
  }

  predicate Armed(tail: Option<Tail>) {
    Inside(tail) && !tail.value.AtArm?
  }

  predicate InSection(s: State, t: Thread) {
    Inside(TailOf(s, t))
  }

  /** The watcher has looked at the flag after publishing the pipe and found it clear: a handler
      that had not yet stored the flag by then will find the pipe. */
  predicate RelyingOnPipe(w: Watcher) {
    w.AddingDevices? || w.InEpoll?
  }

  predicate HandlerOk(h: Handler, received: bool, readable: bool, relying: bool) {
    && (!h.Entered? ==> received)
    && (h == Finished(true) ==> readable)
    && (relying ==> h != FdLoaded(false) && h != Finished(false))
  }

  predicate SignalOk(handlers: seq<Handler>, received: bool, published: bool, pipe: nat, w: Watcher) {
    && (forall i :: 0 <= i < |handlers| ==> HandlerOk(handlers[i], received, pipe > 0, RelyingOnPipe(w)))
    && (w.Checking? || RelyingOnPipe(w) ==> published)
  }

  predicate FlagOk(m: Main, w: Watcher, a: App, shuttingDown: bool, termSent: bool, killSent: bool) {
    && (w.Flagged? || w.InGrace? || w.WatcherTail? || m.MainTail? || termSent || killSent ==> shuttingDown)
    && (a.Zombie? || a.Reaped? ==> (a.cause == ByTerm ==> termSent) && (a.cause == ByKill ==> killSent))
  }

  /** Once reaped with the flag clear, the app's exit is in the watchdog's hands. */
  predicate WatchdogOk(m: Main, w: Watcher, a: App, shuttingDown: bool) {
    && (m.Waiting? || m.Returned? || m.Deciding? ==> !a.NotStarted?)
    && (m.Booting? ==> w.NotSpawned? && !a.Reaped?)
    && (a.Reaped? && !shuttingDown ==> m == Returned(AppPid) || m == Deciding(AppPid, false) || m.FatalShutdown?)
    && (m == Returned(AppPid) || (m.Deciding? && m.result.AppPid?) ==> a.Reaped?)
    && (m == Deciding(AppPid, false) ==> a == Reaped(OnItsOwn))
    && (m == Returned(NoChildren) || (m.Deciding? && (m.result.NoChildren? || m.flag)) ==> shuttingDown)
    && m != Deciding(NoChildren, false)
  }

  predicate SectionOk(one: Option<Tail>, other: Option<Tail>, wipeStarted: bool, deadline: Option<nat>, now: nat) {
    && !(Inside(one) && Inside(other))
    && (Inside(one) || Inside(other) <==> wipeStarted)
    && (Armed(one) || Armed(other) <==> deadline.Some?)
    && (deadline.Some? ==> now <= deadline.value)
  }

  /** What each way of powering off says about the wipe. */
  predicate OffOk(off: Option<OffBy>, offAt: nat, one: Option<Tail>, other: Option<Tail>,
                  deadline: Option<nat>, now: nat, log: seq<Event>) {
    off.Some? ==>
      && offAt == now
      && match off.value
         case Completed => log == [DeadlineArmed, KilledAll, Settled, Scrubbed]
         case SecondEntry => (one == Some(AtSwap) && Inside(other)) || (other == Some(AtSwap) && Inside(one))
         case NotArmed => deadline.None? && log == []
         case DeadlineExpired => deadline == Some(offAt)
  }

  /** What the section has done so far is what its program counter says. */
  function LogAt(tail: Option<Tail>): seq<Event> {
    match tail
    case Some(AtKill) => [DeadlineArmed]
    case Some(Settling(_)) => [DeadlineArmed, KilledAll]
    case Some(AtScrub) => [DeadlineArmed, KilledAll, Settled]
    case Some(AtPowerOff) => [DeadlineArmed, KilledAll, Settled, Scrubbed]
    case _ => []
  }

  predicate LogOk(one: Option<Tail>, other: Option<Tail>, log: seq<Event>, killSent: bool) {
    && log == (if Inside(one) then LogAt(one) else LogAt(other))
    && (killSent <==> |log| >= 2)
  }

  predicate SignalInv(s: State) {
    SignalOk(s.handlers, s.received, s.published, s.pipe, s.watcher)
  }

  predicate FlagInv(s: State) {
    FlagOk(s.main, s.watcher, s.app, s.shuttingDown, s.termSent, s.killSent)
  }

  predicate WatchdogInv(s: State) {
    WatchdogOk(s.main, s.watcher, s.app, s.shuttingDown)
  }

  predicate SectionInv(s: State) {
    && SectionOk(TailOf(s, PidOne), TailOf(s, TheWatcher), s.wipeStarted, s.deadline, s.now)
    && OffOk(s.off, s.offAt, TailOf(s, PidOne), TailOf(s, TheWatcher), s.deadline, s.now, s.log)
  }

  predicate LogInv(s: State) {
    LogOk(TailOf(s, PidOne), TailOf(s, TheWatcher), s.log, s.killSent)
  }

  predicate Inv(s: State) {
    SignalInv(s) && FlagInv(s) && WatchdogInv(s) && SectionInv(s) && LogInv(s)
  }

  lemma BootKeepsSignals(s: State, b: BootStep)
    requires s.off.None? && SignalInv(s) && BootEnabled(s, b)
    ensures SignalInv(ApplyBoot(s, b))
  {
  }

  lemma BootKeepsFlags(s: State, b: BootStep)
    requires s.off.None? && FlagInv(s) && WatchdogInv(s) && BootEnabled(s, b)
    ensures FlagInv(ApplyBoot(s, b)) && WatchdogInv(ApplyBoot(s, b))
  {
  }

  lemma BootKeepsSection(s: State, b: BootStep)
    requires s.off.None? && WatchdogInv(s) && SectionInv(s) && LogInv(s) && BootEnabled(s, b)
    ensures SectionInv(ApplyBoot(s, b)) && LogInv(ApplyBoot(s, b))
  {
  }

  lemma SignalKeepsSignals(s: State, g: SignalStep)
    requires s.off.None? && SignalInv(s) && SignalEnabled(s, g)
    ensures SignalInv(ApplySignal(s, g))
  {
  }

  lemma SignalKeepsFlags(s: State, g: SignalStep)
    requires s.off.None? && FlagInv(s) && WatchdogInv(s) && SignalEnabled(s, g)
    ensures FlagInv(ApplySignal(s, g)) && WatchdogInv(ApplySignal(s, g))
  {
  }

  lemma SignalKeepsSection(s: State, g: SignalStep)
    requires s.off.None? && SectionInv(s) && LogInv(s) && SignalEnabled(s, g)
    ensures SectionInv(ApplySignal(s, g)) && LogInv(ApplySignal(s, g))
  {
  }

  lemma WatchKeepsSignals(s: State, w: WatchStep)
    requires s.off.None? && SignalInv(s) && WatchEnabled(s, w)
    ensures SignalInv(ApplyWatch(s, w))
  {
  }

  lemma WatchKeepsFlags(s: State, w: WatchStep)
    requires s.off.None? && FlagInv(s) && WatchdogInv(s) && WatchEnabled(s, w)
    ensures FlagInv(ApplyWatch(s, w)) && WatchdogInv(ApplyWatch(s, w))
  {
  }

  lemma WatchKeepsSection(s: State, w: WatchStep)
    requires s.off.None? && SectionInv(s) && LogInv(s) && WatchEnabled(s, w)
    ensures SectionInv(ApplyWatch(s, w)) && LogInv(ApplyWatch(s, w))
  {
  }

  lemma DogKeepsSignals(s: State, d: DogStep)
    requires s.off.None? && SignalInv(s) && DogEnabled(s, d)
    ensures SignalInv(ApplyDog(s, d))
  {
  }

  lemma DogKeepsFlags(s: State, d: DogStep)
    requires s.off.None? && FlagInv(s) && WatchdogInv(s) && DogEnabled(s, d)
    ensures FlagInv(ApplyDog(s, d)) && WatchdogInv(ApplyDog(s, d))
  {
  }

  lemma DogKeepsSection(s: State, d: DogStep)
    requires s.off.None? && SectionInv(s) && LogInv(s) && DogEnabled(s, d)
    ensures SectionInv(ApplyDog(s, d)) && LogInv(ApplyDog(s, d))
  {
  }

  lemma WipeKeepsSignals(s: State, t: Thread, w: WipeStep)
    requires s.off.None? && SignalInv(s) && WipeEnabled(s, t, w)
    ensures SignalInv(ApplyWipe(s, t, w))
  {
  }

  lemma WipeKeepsFlags(s: State, t: Thread, w: WipeStep)
    requires s.off.None? && FlagInv(s) && WatchdogInv(s) && WipeEnabled(s, t, w)
    ensures FlagInv(ApplyWipe(s, t, w)) && WatchdogInv(ApplyWipe(s, t, w))
  {
  }

  lemma WipeKeepsSection(s: State, t: Thread, w: WipeStep)
    requires s.off.None? && SectionInv(s) && LogInv(s) && WipeEnabled(s, t, w)
    ensures SectionInv(ApplyWipe(s, t, w)) && LogInv(ApplyWipe(s, t, w))
  {
  }

  lemma WorldKeepsSignals(s: State, x: WorldStep)
    requires s.off.None? && SignalInv(s) && WorldEnabled(s, x)
    ensures SignalInv(ApplyWorld(s, x))
  {
  }

  lemma WorldKeepsFlags(s: State, x: WorldStep)
    requires s.off.None? && FlagInv(s) && WatchdogInv(s) && WorldEnabled(s, x)
    ensures FlagInv(ApplyWorld(s, x)) && WatchdogInv(ApplyWorld(s, x))
  {
  }

  lemma WorldKeepsSection(s: State, x: WorldStep)
    requires s.off.None? && SectionInv(s) && LogInv(s) && WorldEnabled(s, x)
    ensures SectionInv(ApplyWorld(s, x)) && LogInv(ApplyWorld(s, x))
  {
  }

  lemma StepKeeps(s: State, a: Action)
    requires Inv(s) && Enabled(s, a)
    ensures Inv(Apply(s, a))
  {
    hide SignalInv, FlagInv, WatchdogInv, SectionInv, LogInv;
    match a
    case Boot(b) =>
      BootKeepsSignals(s, b);
      BootKeepsFlags(s, b);
      BootKeepsSection(s, b);
    case Signal(g) =>
      SignalKeepsSignals(s, g);
      SignalKeepsFlags(s, g);
      SignalKeepsSection(s, g);
    case Watch(w) =>
      WatchKeepsSignals(s, w);
      WatchKeepsFlags(s, w);
      WatchKeepsSection(s, w);
    case Dog(d) =>
      DogKeepsSignals(s, d);
      DogKeepsFlags(s, d);
      DogKeepsSection(s, d);
    case Wipe(t, w) =>
      WipeKeepsSignals(s, t, w);
      WipeKeepsFlags(s, t, w);
      WipeKeepsSection(s, t, w);
    case World(x) =>
      WorldKeepsSignals(s, x);
      WorldKeepsFlags(s, x);
      WorldKeepsSection(s, x);
  }

  /** Every state of every run satisfies the invariant. */
  lemma {:induction false} RunsKeepInv(acts: seq<Action>)
    requires Run(acts).Some?
    ensures Inv(Run(acts).value)
    decreases |acts|
  {
    hide Inv, Enabled, Apply;
    if acts == [] {
      assert Inv(INITIAL) by { InitialInv(); }
    } else {
      var before := acts[..|acts| - 1];
      RunsKeepInv(before);
      StepKeeps(Run(before).value, acts[|acts| - 1]);
    }
  }

  lemma InitialInv()
    ensures Inv(INITIAL)
  {
  }

  // ----- runs --------------------------------------------------------------------------------

  predicate Reaches(acts: seq<Action>, s: State) {
    Run(acts) == Some(s)
  }

  lemma RunExtends(acts: seq<Action>, a: Action)
    ensures Run(acts + [a]) ==
            if Run(acts).Some? && Enabled(Run(acts).value, a) then Some(Apply(Run(acts).value, a)) else None
  {
    hide Enabled, Apply;
    var all := acts + [a];
    assert all[..|all| - 1] == acts;
  }

  /** A run's beginning is a run. */
  lemma {:induction false} RunPrefix(acts: seq<Action>, more: seq<Action>)
    requires Run(acts + more).Some?
    ensures Run(acts).Some?
    decreases |more|
  {
    hide Enabled, Apply;
    if more == [] {
      assert acts + more == acts;
    } else {
      var before := more[..|more| - 1];
      assert (acts + before) + [more[|more| - 1]] == acts + more;
      RunExtends(acts + before, more[|more| - 1]);
      RunPrefix(acts, before);
    }
  }

  // ----- no lost signal ----------------------------------------------------------------------

  /** Whatever the interleaving of the handler with the watcher's start-up, once a handler has
      finished the watcher is not blocked: in the epoll wait the pipe is readable, and the polling
      fallback finds the flag. */
  lemma NoLostSignal(acts: seq<Action>, s: State, i: nat)
    requires Reaches(acts, s) && s.off.None? && i < |s.handlers| && s.handlers[i].Finished?
    ensures s.watcher.InEpoll? ==> Enabled(s, Watch(EpollReadable))
    ensures s.watcher.Polling? ==> Enabled(s, Watch(PollReceived)) && !Enabled(s, Watch(SpuriousWakeup))
  {
    RunsKeepInv(acts);
    assert HandlerOk(s.handlers[i], s.received, s.pipe > 0, RelyingOnPipe(s.watcher));
  }

  /** Steps left before the watcher has been triggered, at most. */
  function Rank(w: Watcher): nat {
    match w
    case NotSpawned => 7
    case SettingUp => 6
    case Publishing => 5
    case Checking => 4
    case AddingDevices => 3
    case InEpoll => 2
    case Polling => 2
    case _ => 0
  }

  /** The watcher's own steps, a wakeup for nothing aside. */
  predicate Advancing(a: Action) {
    a.Watch? && !a.watch.SpuriousWakeup?
  }

  /** After a finished handler a spawned watcher that has not been triggered yet can always take
      a step, each such step brings it closer, and no other thread's step takes it back. */
  lemma SignalLeadsToTrigger(acts: seq<Action>, s: State, i: nat)
    requires Reaches(acts, s) && s.off.None? && i < |s.handlers| && s.handlers[i].Finished?
    requires !s.watcher.NotSpawned? && Rank(s.watcher) > 0
    ensures exists a :: Advancing(a) && Enabled(s, a)
    ensures forall a :: Enabled(s, a) ==>
      if Advancing(a) then Rank(Apply(s, a).watcher) < Rank(s.watcher) else Apply(s, a).watcher == s.watcher
    ensures forall a :: Enabled(s, a) ==> i < |Apply(s, a).handlers| && Apply(s, a).handlers[i].Finished?
  {
    NoLostSignal(acts, s, i);
    RunsKeepInv(acts);
    var next :=
      match s.watcher
      case SettingUp => SetUp(true)
      case Publishing => Publish
      case Checking => CheckReceived
      case AddingDevices => AddDevices(true)
      case InEpoll => EpollReadable
      case _ => PollReceived;
    assert Enabled(s, Watch(next)) && Advancing(Watch(next));
    forall a | Enabled(s, a)
      ensures if Advancing(a) then Rank(Apply(s, a).watcher) < Rank(s.watcher) else Apply(s, a).watcher == s.watcher
      ensures i < |Apply(s, a).handlers| && Apply(s, a).handlers[i].Finished?
    {
      UntriggeredStep(s, a, i);
    }
  }

  lemma UntriggeredStep(s: State, a: Action, i: nat)
    requires WatchdogInv(s) && Enabled(s, a) && i < |s.handlers| && s.handlers[i].Finished?
    requires !s.watcher.NotSpawned? && Rank(s.watcher) > 0
    ensures if Advancing(a) then Rank(Apply(s, a).watcher) < Rank(s.watcher) else Apply(s, a).watcher == s.watcher
    ensures i < |Apply(s, a).handlers| && Apply(s, a).handlers[i].Finished?
  {
    hide ApplyBoot, ApplySignal, ApplyWatch, ApplyDog, ApplyWipe, ApplyWorld;
    match a
    case Boot(b) => BootTouches(s, b);
    case Signal(g) => SignalTouches(s, g, i);
    case Watch(w) =>
      WatchTouches(s, w);
      WatchRanks(s, w);
    case Dog(d) => DogTouches(s, d);
    case Wipe(t, w) => WipeTouches(s, t, w);
    case World(x) => WorldTouches(s, x);
  }

  lemma WatchRanks(s: State, w: WatchStep)
    requires WatchEnabled(s, w) && Rank(s.watcher) > 0
    ensures if w.SpuriousWakeup? then ApplyWatch(s, w).watcher == s.watcher
            else Rank(ApplyWatch(s, w).watcher) < Rank(s.watcher)
  {
  }

  // What each group of steps leaves alone.

  lemma BootTouches(s: State, b: BootStep)
    requires BootEnabled(s, b) && WatchdogInv(s)
    ensures var after := ApplyBoot(s, b);
      && after.deadline == s.deadline && after.now == s.now && after.handlers == s.handlers
      && s.watcher.NotSpawned?
  {
  }

  lemma SignalTouches(s: State, g: SignalStep, i: nat)
    requires SignalEnabled(s, g)
    ensures var after := ApplySignal(s, g);
      && after.deadline == s.deadline && after.now == s.now && after.watcher == s.watcher
      && |after.handlers| >= |s.handlers|
      && (i < |s.handlers| && s.handlers[i].Finished? ==> after.handlers[i] == s.handlers[i])
  {
  }

  lemma WatchTouches(s: State, w: WatchStep)
    requires WatchEnabled(s, w)
    ensures var after := ApplyWatch(s, w);
      after.deadline == s.deadline && after.now == s.now && after.handlers == s.handlers
  {
  }

  lemma DogTouches(s: State, d: DogStep)
    requires DogEnabled(s, d)
    ensures var after := ApplyDog(s, d);
      && after.deadline == s.deadline && after.now == s.now
      && after.watcher == s.watcher && after.handlers == s.handlers
  {
  }

  lemma WipeTouches(s: State, t: Thread, w: WipeStep)
    requires WipeEnabled(s, t, w)
    ensures var after := ApplyWipe(s, t, w);
      && after.now == s.now && after.handlers == s.handlers
      && (s.watcher.WatcherTail? || after.watcher == s.watcher)
      && (after.deadline == s.deadline || Armed(TailOf(s, t)) == false)
      && (w == Arm(true) ==> after.deadline == Some(s.now + WIPE_DEADLINE))
  {
  }

  lemma WorldTouches(s: State, x: WorldStep)
    requires WorldEnabled(s, x)
    ensures var after := ApplyWorld(s, x);
      && after.deadline == s.deadline && after.now == s.now + (if x.Tick? then 1 else 0)
      && after.watcher == s.watcher && after.handlers == s.handlers
  {
  }

  // ----- single wipe -------------------------------------------------------------------------

  /** At most one thread is ever past the interlock, and what has been done of the wipe is always
      a beginning of: arm the deadline, kill everything, wait for it to be gone, scrub. */
  lemma SingleWipe(acts: seq<Action>, s: State)
    requires Reaches(acts, s)
    ensures !(InSection(s, PidOne) && InSection(s, TheWatcher))
    ensures s.wipeStarted <==> InSection(s, PidOne) || InSection(s, TheWatcher)
    ensures s.log <= [DeadlineArmed, KilledAll, Settled, Scrubbed]
    ensures s.log != [] ==> s.deadline.Some?
    ensures s.killSent <==> KilledAll in s.log
  {
    RunsKeepInv(acts);
  }

  /** The interlock and the deadline are the only ways on: a thread that comes second, or cannot arm
      its deadline, powers off in that very step, before anything is killed or scrubbed by it. */
  lemma SecondOrUnarmedGoesOff(acts: seq<Action>, s: State, t: Thread, w: WipeStep)
    requires Reaches(acts, s) && Enabled(s, Wipe(t, w))
    requires (TailOf(s, t) == Some(AtSwap) && s.wipeStarted) || w == Arm(false)
    ensures var after := Apply(s, Wipe(t, w));
      && after.off == Some(if w == Arm(false) then NotArmed else SecondEntry)
      && after.log == s.log && after.killSent == s.killSent
      && (w == Arm(false) ==> after.log == [] && !after.killSent)
  {
    RunsKeepInv(acts);
  }

  /** The four ways a run ends. Only the first has wiped for sure; in the second another thread
      was in the section, in the third nothing was started, and the fourth is on time. */
  lemma HowItEnds(acts: seq<Action>, s: State)
    requires Reaches(acts, s) && s.off.Some?
    ensures s.off == Some(Completed) ==> s.log == [DeadlineArmed, KilledAll, Settled, Scrubbed]
    ensures s.off == Some(SecondEntry) ==>
      exists t: Thread, u: Thread :: t != u && TailOf(s, t) == Some(AtSwap) && InSection(s, u)
    ensures s.off == Some(NotArmed) ==> s.log == [] && !s.killSent
    ensures s.off == Some(DeadlineExpired) ==> s.deadline == Some(s.offAt)
    ensures forall a :: !Enabled(s, a)
  {
    RunsKeepInv(acts);
    if s.off == Some(SecondEntry) {
      if TailOf(s, PidOne) == Some(AtSwap) && InSection(s, TheWatcher) {
      } else {
        assert TailOf(s, TheWatcher) == Some(AtSwap) && InSection(s, PidOne);
      }
    }
  }

  // ----- the waits ---------------------------------------------------------------------------

  function Ticks(acts: seq<Action>): nat {
    if acts == [] then 0 else Ticks(acts[..|acts| - 1]) + (if acts[|acts| - 1] == World(Tick) then 1 else 0)
  }

  predicate AppIsGone(s: State) {
    s.app.NotStarted? || s.app.Reaped?
  }

  /** Of this run, action `i` sent SIGTERM and action `j` ended the grace period: the app was gone by
      then, or the whole period had passed in between. */
  ghost predicate GraceBetween(acts: seq<Action>, i: nat, j: nat) {
    && i < j < |acts| && acts[i] == Watch(SendTerm) && acts[j] == Watch(EndGrace)
    && Run(acts[..j]).Some?
    && (AppIsGone(Run(acts[..j]).value) || Ticks(acts[..j]) >= Ticks(acts[..i]) + SIGTERM_GRACE)
  }

  /** The same for killing everything and waiting for it to be gone. */
  ghost predicate SettledBetween(acts: seq<Action>, i: nat, j: nat, t: Thread) {
    && i < j < |acts| && acts[i] == Wipe(t, KillAll) && acts[j] == Wipe(t, EndSettle)
    && Run(acts[..j]).Some?
    && ((AppIsGone(Run(acts[..j]).value) && Run(acts[..j]).value.others == 0)
        || Ticks(acts[..j]) >= Ticks(acts[..i]) + KILL_SETTLE_TIMEOUT)
  }

  predicate SentAt(acts: seq<Action>, i: nat, until: nat) {
    i < |acts| && acts[i] == Watch(SendTerm) && until == Ticks(acts[..i]) + SIGTERM_GRACE
  }

  predicate KilledAt(acts: seq<Action>, i: nat, t: Thread, until: nat) {
    i < |acts| && acts[i] == Wipe(t, KillAll) && until == Ticks(acts[..i]) + KILL_SETTLE_TIMEOUT
  }

  ghost predicate GraceGiven(acts: seq<Action>) {
    exists i, j :: GraceBetween(acts, i, j)
  }

  ghost predicate SettlingGiven(acts: seq<Action>) {
    exists i, j, t :: SettledBetween(acts, i, j, t)
  }

  predicate IsSettling(s: State, t: Thread) {
    TailOf(s, t).Some? && TailOf(s, t).value.Settling?
  }

  /** What the actions of a run say about the waits its state is in or past. */
  ghost predicate Waits(acts: seq<Action>, s: State) {
    && s.now == Ticks(acts)
    && (s.watcher.InGrace? ==> exists i :: SentAt(acts, i, s.watcher.until))
    && (s.watcher.WatcherTail? ==> GraceGiven(acts))
    && (forall t: Thread :: IsSettling(s, t) ==> exists i :: KilledAt(acts, i, t, TailOf(s, t).value.until))
    && (Settled in s.log ==> SettlingGiven(acts))
  }

  /** How one step gets the watcher into its grace period and out of it, a thread into its settling and
      out of it. */
  predicate WaitStep(s: State, a: Action, after: State) {
    && after.now == s.now + (if a == World(Tick) then 1 else 0)
    && (after.watcher.InGrace? ==>
          after.watcher == s.watcher || (a == Watch(SendTerm) && after.watcher.until == s.now + SIGTERM_GRACE))
    && (after.watcher.WatcherTail? && !s.watcher.WatcherTail? ==>
          a == Watch(EndGrace) && s.watcher.InGrace? && (AppIsGone(s) || s.now >= s.watcher.until))
    && (forall t: Thread :: IsSettling(after, t) ==>
          || TailOf(after, t) == TailOf(s, t)
          || (a == Wipe(t, KillAll) && TailOf(after, t).value.until == s.now + KILL_SETTLE_TIMEOUT))
    && (Settled in after.log && Settled !in s.log ==>
          && a.Wipe? && a.wipe.EndSettle? && IsSettling(s, a.t)
          && ((AppIsGone(s) && s.others == 0) || s.now >= TailOf(s, a.t).value.until))
  }

  lemma WaitsInSteps(s: State, a: Action)
    requires Enabled(s, a)
    ensures WaitStep(s, a, Apply(s, a))
  {
    hide ApplyBoot, ApplySignal, ApplyWatch, ApplyDog, ApplyWipe, ApplyWorld, WaitStep;
    match a
    case Boot(b) => BootWaits(s, b);
    case Signal(g) => SignalWaits(s, g);
    case Watch(w) => WatchWaits(s, w);
    case Dog(d) => DogWaits(s, d);
    case Wipe(t, w) => WipeWaits(s, t, w);
    case World(x) => WorldWaits(s, x);
  }

  lemma BootWaits(s: State, b: BootStep)
    requires BootEnabled(s, b)
    ensures WaitStep(s, Boot(b), ApplyBoot(s, b))
  {
  }

  lemma SignalWaits(s: State, g: SignalStep)
    requires SignalEnabled(s, g)
    ensures WaitStep(s, Signal(g), ApplySignal(s, g))
  {
  }

  lemma WatchWaits(s: State, w: WatchStep)
    requires WatchEnabled(s, w)
    ensures WaitStep(s, Watch(w), ApplyWatch(s, w))
  {
  }

  lemma DogWaits(s: State, d: DogStep)
    requires DogEnabled(s, d)
    ensures WaitStep(s, Dog(d), ApplyDog(s, d))
  {
  }

  lemma WipeWaits(s: State, t: Thread, w: WipeStep)
    requires WipeEnabled(s, t, w)
    ensures WaitStep(s, Wipe(t, w), ApplyWipe(s, t, w))
  {
  }

  lemma WorldWaits(s: State, x: WorldStep)
    requires WorldEnabled(s, x)
    ensures WaitStep(s, World(x), ApplyWorld(s, x))
  {
  }

  lemma TicksSnoc(acts: seq<Action>, a: Action)
    ensures Ticks(acts + [a]) == Ticks(acts) + (if a == World(Tick) then 1 else 0)
  {
    assert (acts + [a])[..|acts|] == acts;
  }

  lemma WaitsStart()
    ensures Waits([], INITIAL)
  {
  }

  lemma GraceStays(acts: seq<Action>, a: Action, i: nat, j: nat)
    requires GraceBetween(acts, i, j)
    ensures GraceBetween(acts + [a], i, j)
  {
    hide Run, Ticks;
    assert (acts + [a])[..i] == acts[..i] && (acts + [a])[..j] == acts[..j];
  }

  lemma SettledStays(acts: seq<Action>, a: Action, i: nat, j: nat, t: Thread)
    requires SettledBetween(acts, i, j, t)
    ensures SettledBetween(acts + [a], i, j, t)
  {
    hide Run, Ticks;
    assert (acts + [a])[..i] == acts[..i] && (acts + [a])[..j] == acts[..j];
  }

  lemma SentStays(acts: seq<Action>, a: Action, i: nat, until: nat)
    requires SentAt(acts, i, until)
    ensures SentAt(acts + [a], i, until)
  {
    hide Ticks;
    assert (acts + [a])[..i] == acts[..i];
  }

  lemma KilledStays(acts: seq<Action>, a: Action, i: nat, t: Thread, until: nat)
    requires KilledAt(acts, i, t, until)
    ensures KilledAt(acts + [a], i, t, until)
  {
    hide Ticks;
    assert (acts + [a])[..i] == acts[..i];
  }

  lemma AtEnd(acts: seq<Action>, a: Action)
    ensures (acts + [a])[..|acts|] == acts && (acts + [a])[|acts|] == a
  {
  }

  /** The grace period's half of a step. */
  lemma GraceGrows(acts: seq<Action>, s: State, a: Action, after: State)
    requires Run(acts) == Some(s) && Waits(acts, s) && WaitStep(s, a, after)
    ensures after.watcher.InGrace? ==> exists i :: SentAt(acts + [a], i, after.watcher.until)
    ensures after.watcher.WatcherTail? ==> GraceGiven(acts + [a])
  {
    AtEnd(acts, a);
    hide Run, Ticks, IsSettling, SettlingGiven;
    if after.watcher.InGrace? {
      if after.watcher == s.watcher {
        var i :| SentAt(acts, i, s.watcher.until);
        SentStays(acts, a, i, s.watcher.until);
      } else {
        assert SentAt(acts + [a], |acts|, after.watcher.until);
      }
    }
    if after.watcher.WatcherTail? {
      if s.watcher.WatcherTail? {
        var i, j :| GraceBetween(acts, i, j);
        GraceStays(acts, a, i, j);
      } else {
        var i :| SentAt(acts, i, s.watcher.until);
        SentStays(acts, a, i, s.watcher.until);
        assert GraceBetween(acts + [a], i, |acts|);
      }
    }
  }

  lemma SettlingGrows(acts: seq<Action>, s: State, a: Action, after: State, t: Thread)
    requires Run(acts) == Some(s) && Waits(acts, s) && WaitStep(s, a, after) && IsSettling(after, t)
    ensures exists i :: KilledAt(acts + [a], i, t, TailOf(after, t).value.until)
  {
    AtEnd(acts, a);
    hide Run, Ticks, TailOf, SettlingGiven, GraceGiven;
    if TailOf(after, t) == TailOf(s, t) {
      var i :| KilledAt(acts, i, t, TailOf(s, t).value.until);
      KilledStays(acts, a, i, t, TailOf(s, t).value.until);
    } else {
      assert KilledAt(acts + [a], |acts|, t, TailOf(after, t).value.until);
    }
  }

  lemma SettledGrows(acts: seq<Action>, s: State, a: Action, after: State)
    requires Run(acts) == Some(s) && Waits(acts, s) && WaitStep(s, a, after) && Settled in after.log
    ensures SettlingGiven(acts + [a])
  {
    AtEnd(acts, a);
    hide Run, Ticks, TailOf, GraceGiven;
    if Settled in s.log {
      var i, j, t :| SettledBetween(acts, i, j, t);
      SettledStays(acts, a, i, j, t);
    } else {
      var until := TailOf(s, a.t).value.until;
      var i :| KilledAt(acts, i, a.t, until);
      KilledStays(acts, a, i, a.t, until);
      assert SettledBetween(acts + [a], i, |acts|, a.t);
    }
  }

  lemma {:induction false} RunsWait(acts: seq<Action>)
    requires Run(acts).Some?
    ensures Waits(acts, Run(acts).value)
    decreases |acts|
  {
    hide Enabled, Apply, Waits;
    if acts == [] {
      WaitsStart();
    } else {
      var before, a := acts[..|acts| - 1], acts[|acts| - 1];
      RunsWait(before);
      assert before + [a] == acts;
      OneMoreWait(before, Run(before).value, a);
    }
  }

  lemma OneMoreWait(acts: seq<Action>, s: State, a: Action)
    requires Run(acts) == Some(s) && Waits(acts, s) && Enabled(s, a)
    ensures Waits(acts + [a], Apply(s, a))
  {
    WaitsInSteps(s, a);
    TicksSnoc(acts, a);
    hide Run, Enabled, Apply, Ticks, IsSettling, SettlingGiven, GraceGiven, SentAt, KilledAt;
    var after := Apply(s, a);
    GraceGrows(acts, s, a, after);
    if Settled in after.log {
      SettledGrows(acts, s, a, after);
    }
    forall t: Thread | IsSettling(after, t)
      ensures exists i :: KilledAt(acts + [a], i, t, TailOf(after, t).value.until)
    {
      SettlingGrows(acts, s, a, after, t);
    }
  }

  /** The app gets its grace: whenever the watcher has come to the interlock, it had sent SIGTERM before,
      and between that and the end of its wait either the app was gone or ten seconds went by. */
  lemma AppGetsItsGrace(acts: seq<Action>, s: State)
    requires Reaches(acts, s) && s.watcher.WatcherTail?
    ensures GraceGiven(acts)
  {
    RunsWait(acts);
  }

  /** Nothing is scrubbed under a running process: whenever the scrub is done, everything had been killed
      before, and between that and the scrub either everyone was gone or the settling time went by. */
  lemma ScrubWaits(acts: seq<Action>, s: State)
    requires Reaches(acts, s) && Scrubbed in s.log
    ensures SettlingGiven(acts)
  {
    SingleWipe(acts, s);
    RunsWait(acts);
    hide Run, Inv;
    var whole := [DeadlineArmed, KilledAll, Settled, Scrubbed];
    assert s.log[..|s.log|] == whole[..|s.log|];
    var k :| 0 <= k < |s.log| && s.log[k] == Scrubbed;
    assert whole[k] == Scrubbed && k == 3 && s.log[2] == whole[2] == Settled;
  }

  /** PID 1 comes up in order: no app before the handler is installed, no watcher before the app, no
      supervising before the watcher. */
  predicate BootOk(s: State) {
    && (!s.app.NotStarted? || s.handlers != [] ==> s.armed)
    && (!s.watcher.NotSpawned? ==> !s.app.NotStarted?)
    && (s.main.Waiting? || s.main.Returned? || s.main.Deciding? ==> !s.watcher.NotSpawned?)
  }

  lemma {:induction false} HandlerBeforeApp(acts: seq<Action>)
    requires Run(acts).Some?
    ensures BootOk(Run(acts).value)
    decreases |acts|
  {
    hide Enabled, Apply;
    if acts != [] {
      HandlerBeforeApp(acts[..|acts| - 1]);
      StepInOrder(Run(acts[..|acts| - 1]).value, acts[|acts| - 1]);
    }
  }

  lemma StepInOrder(s: State, a: Action)
    requires BootOk(s) && Enabled(s, a)
    ensures BootOk(Apply(s, a))
  {
    hide ApplyBoot, ApplySignal, ApplyWatch, ApplyDog, ApplyWipe, ApplyWorld, BootOk;
    match a
    case Boot(b) => BootInOrder(s, b);
    case Signal(g) => SignalInOrder(s, g);
    case Watch(w) => WatchInOrder(s, w);
    case Dog(d) => DogInOrder(s, d);
    case Wipe(t, w) => WipeInOrder(s, t, w);
    case World(x) => WorldInOrder(s, x);
  }

  lemma BootInOrder(s: State, b: BootStep)
    requires BootOk(s) && BootEnabled(s, b)
    ensures BootOk(ApplyBoot(s, b))
  {
  }

  lemma SignalInOrder(s: State, g: SignalStep)
    requires BootOk(s) && SignalEnabled(s, g)
    ensures BootOk(ApplySignal(s, g))
  {
  }

  lemma WatchInOrder(s: State, w: WatchStep)
    requires BootOk(s) && WatchEnabled(s, w)
    ensures BootOk(ApplyWatch(s, w))
  {
  }

  lemma DogInOrder(s: State, d: DogStep)
    requires BootOk(s) && DogEnabled(s, d)
    ensures BootOk(ApplyDog(s, d))
  {
  }

  lemma WipeInOrder(s: State, t: Thread, w: WipeStep)
    requires BootOk(s) && WipeEnabled(s, t, w)
    ensures BootOk(ApplyWipe(s, t, w))
  {
  }

  lemma WorldInOrder(s: State, x: WorldStep)
    requires BootOk(s) && WorldEnabled(s, x)
    ensures BootOk(ApplyWorld(s, x))
  {
  }

  /** Something the watcher listens to could not be set up: its pipe, its epoll instance or a device. */
  predicate SetUpFailed(acts: seq<Action>) {
    Watch(SetUp(false)) in acts || Watch(AddDevices(false)) in acts
  }

  predicate BeforeTrigger(w: Watcher) {
    w.NotSpawned? || w.SettingUp? || w.Publishing? || w.Checking? || w.AddingDevices? || w.InEpoll?
  }

  predicate ListensTo(acts: seq<Action>, s: State) {
    && (s.main.Booting? ==> s.watcher.NotSpawned?)
    && (BeforeTrigger(s.watcher) ==> !SetUpFailed(acts))
    && (s.watcher.InEpoll? ==> Watch(AddDevices(true)) in acts)
    && (s.watcher.Polling? ==> SetUpFailed(acts))
  }

  /** No watcher is deaf to a power button: in every run it waits in epoll only when the devices, and all
      before them, were registered, and it polls exactly because something was not. */
  lemma {:induction false} WatcherListens(acts: seq<Action>, s: State)
    requires Reaches(acts, s)
    ensures s.watcher.InEpoll? ==> Watch(AddDevices(true)) in acts && !SetUpFailed(acts)
    ensures s.watcher.Polling? ==> SetUpFailed(acts)
    ensures ListensTo(acts, s)
    decreases |acts|
  {
    hide Enabled, Apply;
    if acts != [] {
      var before, last := acts[..|acts| - 1], acts[|acts| - 1];
      WatcherListens(before, Run(before).value);
      assert before + [last] == acts;
      ListensOn(before, Run(before).value, last);
    }
  }

  lemma ListensOn(acts: seq<Action>, s: State, a: Action)
    requires ListensTo(acts, s) && Enabled(s, a)
    ensures ListensTo(acts + [a], Apply(s, a))
  {
    hide ApplyBoot, ApplySignal, ApplyWatch, ApplyDog, ApplyWipe, ApplyWorld;
    if a.Watch? {
      assert Apply(s, a) == ApplyWatch(s, a.watch);
      WatchListensOn(acts, s, a.watch);
    } else {
      StepKeepsWatcher(s, a);
      SetUpFailsOnlyByWatching(acts, a);
      hide Apply;
    }
  }

  lemma SetUpFailsOnlyByWatching(acts: seq<Action>, a: Action)
    ensures SetUpFailed(acts + [a]) <==> SetUpFailed(acts) || a == Watch(SetUp(false)) || a == Watch(AddDevices(false))
    ensures Watch(AddDevices(true)) in acts ==> Watch(AddDevices(true)) in acts + [a]
    ensures a == Watch(AddDevices(true)) ==> a in acts + [a]
  {
  }

  lemma WatchListensOn(acts: seq<Action>, s: State, w: WatchStep)
    requires ListensTo(acts, s) && WatchEnabled(s, w)
    ensures ListensTo(acts + [Watch(w)], ApplyWatch(s, w))
  {
    SetUpFailsOnlyByWatching(acts, Watch(w));
    var n := ApplyWatch(s, w);
    assert n.main == s.main && n.watcher == NextWatcher(s, w);
    hide SetUpFailed, ApplyWatch;
  }

  /** What a step of anyone else does to the watcher: it starts it, or moves it on past the interlock. */
  predicate KeepsWatcher(s: State, n: State) {
    && (n.main.Booting? ==> s.main.Booting? && (s.watcher.NotSpawned? ==> n.watcher.NotSpawned?))
    && (n.watcher == s.watcher || n.watcher.WatcherTail? || (s.main.Booting? && n.watcher.SettingUp?))
  }

  lemma StepKeepsWatcher(s: State, a: Action)
    requires Enabled(s, a) && !a.Watch?
    ensures KeepsWatcher(s, Apply(s, a))
  {
    hide ApplyBoot, ApplySignal, ApplyDog, ApplyWipe, ApplyWorld, KeepsWatcher;
    match a
    case Boot(b) => BootKeepsWatcher(s, b);
    case Signal(g) => SignalKeepsWatcher(s, g);
    case Watch(w) => assert false;
    case Dog(d) => DogKeepsWatcher(s, d);
    case Wipe(t, w) => WipeKeepsWatcher(s, t, w);
    case World(x) => WorldKeepsWatcher(s, x);
  }

  lemma BootKeepsWatcher(s: State, b: BootStep)
    requires BootEnabled(s, b)
    ensures KeepsWatcher(s, ApplyBoot(s, b))
  {
  }

  lemma SignalKeepsWatcher(s: State, g: SignalStep)
    requires SignalEnabled(s, g)
    ensures KeepsWatcher(s, ApplySignal(s, g))
  {
  }

  lemma DogKeepsWatcher(s: State, d: DogStep)
    requires DogEnabled(s, d)
    ensures KeepsWatcher(s, ApplyDog(s, d))
  {
  }

  lemma WipeKeepsWatcher(s: State, t: Thread, w: WipeStep)
    requires WipeEnabled(s, t, w)
    ensures KeepsWatcher(s, ApplyWipe(s, t, w))
  {
  }

  lemma WorldKeepsWatcher(s: State, x: WorldStep)
    requires WorldEnabled(s, x)
    ensures KeepsWatcher(s, ApplyWorld(s, x))
  {
  }

  // ----- what a run's actions say about its end ----------------------------------------------

  /** How often a thread came to the interlock. */
  function Swaps(acts: seq<Action>): nat {
    if acts == [] then 0
    else Swaps(acts[..|acts| - 1]) + (if acts[|acts| - 1].Wipe? && acts[|acts| - 1].wipe.Swap? then 1 else 0)
  }

  /** Some thread could not start its deadline thread. */
  predicate NeverArmed(acts: seq<Action>) {
    exists t: Thread :: Wipe(t, Arm(false)) in acts
  }

  predicate Expired(acts: seq<Action>) {
    World(DeadlineFires) in acts
  }

  predicate Past(acts: seq<Action>, s: State) {
    && Swaps(acts) == (if s.wipeStarted then 1 else 0) + (if s.off == Some(SecondEntry) then 1 else 0)
    && (NeverArmed(acts) <==> s.off == Some(NotArmed))
    && (Expired(acts) <==> s.off == Some(DeadlineExpired))
  }

  /** What one step adds to both sides: only the steps of the wipe section and the deadline thread
      have a part in the ending. */
  lemma OneStep(s: State, a: Action)
    requires Enabled(s, a)
    ensures var after := Apply(s, a);
      && (after.wipeStarted <==> s.wipeStarted || (a.Wipe? && a.wipe.Swap?))
      && after.off == if a.Wipe? then WipeOff(a.wipe, s.wipeStarted)
                      else if a == World(DeadlineFires) then Some(DeadlineExpired) else None
  {
    hide ApplyBoot, ApplySignal, ApplyWatch, ApplyDog, ApplyWipe, ApplyWorld, WipeOff;
    match a
    case Boot(b) => BootEndsNothing(s, b);
    case Signal(g) => SignalEndsNothing(s, g);
    case Watch(w) => WatchEndsNothing(s, w);
    case Dog(d) => DogEndsNothing(s, d);
    case Wipe(t, w) => WipeEnds(s, t, w);
    case World(x) => WorldEnds(s, x);
  }

  lemma BootEndsNothing(s: State, b: BootStep)
    ensures ApplyBoot(s, b).wipeStarted == s.wipeStarted && ApplyBoot(s, b).off == s.off
  {
  }

  lemma SignalEndsNothing(s: State, g: SignalStep)
    requires SignalEnabled(s, g)
    ensures ApplySignal(s, g).wipeStarted == s.wipeStarted && ApplySignal(s, g).off == s.off
  {
  }

  lemma WatchEndsNothing(s: State, w: WatchStep)
    ensures ApplyWatch(s, w).wipeStarted == s.wipeStarted && ApplyWatch(s, w).off == s.off
  {
  }

  lemma DogEndsNothing(s: State, d: DogStep)
    requires DogEnabled(s, d)
    ensures ApplyDog(s, d).wipeStarted == s.wipeStarted && ApplyDog(s, d).off == s.off
  {
  }

  lemma WipeEnds(s: State, t: Thread, w: WipeStep)
    requires WipeEnabled(s, t, w)
    ensures ApplyWipe(s, t, w).wipeStarted == (s.wipeStarted || w.Swap?)
    ensures ApplyWipe(s, t, w).off == WipeOff(w, s.wipeStarted)
  {
  }

  lemma WorldEnds(s: State, x: WorldStep)
    ensures ApplyWorld(s, x).wipeStarted == s.wipeStarted
    ensures ApplyWorld(s, x).off == if x.DeadlineFires? then Some(DeadlineExpired) else s.off
  {
  }

  lemma OneAction(acts: seq<Action>, a: Action)
    ensures Swaps(acts + [a]) == Swaps(acts) + if a.Wipe? && a.wipe.Swap? then 1 else 0
    ensures NeverArmed(acts + [a]) <==> NeverArmed(acts) || (a.Wipe? && a.wipe == Arm(false))
    ensures Expired(acts + [a]) <==> Expired(acts) || a == World(DeadlineFires)
  {
    var all := acts + [a];
    assert all[..|all| - 1] == acts && all[|all| - 1] == a;
    if NeverArmed(acts) {
      var t: Thread :| Wipe(t, Arm(false)) in acts;
      assert Wipe(t, Arm(false)) in all;
    } else if a.Wipe? && a.wipe == Arm(false) {
      assert Wipe(a.t, Arm(false)) in all;
    }
  }

  lemma PastGrows(acts: seq<Action>, s: State, a: Action)
    requires Past(acts, s) && Enabled(s, a)
    ensures Past(acts + [a], Apply(s, a))
  {
    OneStep(s, a);
    OneAction(acts, a);
    assert s.off.None?;
    hide Enabled, Apply, Swaps, NeverArmed, Expired;
  }

  lemma {:induction false} RunsHavePast(acts: seq<Action>)
    requires Run(acts).Some?
    ensures Past(acts, Run(acts).value)
    decreases |acts|
  {
    hide Enabled, Apply, Past;
    if acts == [] {
      assert Past([], INITIAL) by { NoPast(); }
    } else {
      var before := acts[..|acts| - 1];
      RunsHavePast(before);
      PastGrows(before, Run(before).value, acts[|acts| - 1]);
      assert before + [acts[|acts| - 1]] == acts;
    }
  }

  lemma NoPast()
    ensures Past([], INITIAL)
  {
  }

  /** When a wipe completes: a run that ended did the whole of it, in order, if and only if one thread
      came to the interlock, it could arm its deadline, and the deadline did not pass. Each of the
      other endings is one of these going wrong. */
  lemma WipeCompletesIff(acts: seq<Action>, s: State)
    requires Reaches(acts, s) && s.off.Some?
    ensures s.off == Some(Completed) <==> Swaps(acts) == 1 && !NeverArmed(acts) && !Expired(acts)
    ensures s.off == Some(SecondEntry) <==> Swaps(acts) == 2
    ensures s.off == Some(NotArmed) <==> NeverArmed(acts)
    ensures s.off == Some(DeadlineExpired) <==> Expired(acts)
    ensures Swaps(acts) == 1 && !NeverArmed(acts) && !Expired(acts) ==>
      s.log == [DeadlineArmed, KilledAll, Settled, Scrubbed]
  {
    hide Run, Swaps, NeverArmed, Expired;
    RunsHavePast(acts);
    match s.off.value {
      case Completed => EndedAfterStart(acts, s);
      case SecondEntry => EndedAfterStart(acts, s);
      case NotArmed =>
      case DeadlineExpired =>
    }
  }

  lemma EndedAfterStart(acts: seq<Action>, s: State)
    requires Reaches(acts, s) && (s.off == Some(Completed) || s.off == Some(SecondEntry))
    ensures s.wipeStarted
    ensures s.off == Some(Completed) ==> s.log == [DeadlineArmed, KilledAll, Settled, Scrubbed]
  {
    hide Enabled, Apply, Run, SignalInv, FlagInv, WatchdogInv;
    RunsKeepInv(acts);
    PartsOf(s);
  }

  // ----- bounded wipe ------------------------------------------------------------------------

  lemma DeadlineStays(s: State, a: Action)
    requires SectionInv(s) && WatchdogInv(s) && Enabled(s, a) && s.deadline.Some?
    ensures Apply(s, a).deadline == s.deadline
    ensures Apply(s, a).now == s.now + (if a == World(Tick) then 1 else 0)
  {
    hide ApplyBoot, ApplySignal, ApplyWatch, ApplyDog, ApplyWipe, ApplyWorld;
    match a
    case Boot(b) => BootTouches(s, b);
    case Signal(g) => SignalTouches(s, g, 0);
    case Watch(w) => WatchTouches(s, w);
    case Dog(d) => DogTouches(s, d);
    case Wipe(t, w) => ArmsOnce(s, t, w);
    case World(x) => WorldTouches(s, x);
  }

  lemma ArmsOnce(s: State, t: Thread, w: WipeStep)
    requires SectionInv(s) && WipeEnabled(s, t, w) && s.deadline.Some?
    ensures ApplyWipe(s, t, w).deadline == s.deadline && ApplyWipe(s, t, w).now == s.now
  {
    WipeTouches(s, t, w);
  }

  lemma {:induction false} ArmedStaysArmed(acts: seq<Action>, more: seq<Action>)
    requires Run(acts + more).Some?
    requires Run(acts).Some? && Run(acts).value.deadline.Some?
    ensures Run(acts + more).value.deadline == Run(acts).value.deadline
    ensures Run(acts + more).value.now == Run(acts).value.now + Ticks(more)
    decreases |more|
  {
    hide Enabled, Apply, Inv;
    if more == [] {
      assert acts + more == acts;
    } else {
      var before, a := more[..|more| - 1], more[|more| - 1];
      assert (acts + before) + [a] == acts + more;
      RunExtends(acts + before, a);
      ArmedStaysArmed(acts, before);
      RunsKeepInv(acts + before);
      PartsOf(Run(acts + before).value);
      DeadlineStays(Run(acts + before).value, a);
    }
  }

  lemma PartsOf(s: State)
    requires Inv(s)
    ensures SectionInv(s) && WatchdogInv(s)
  {
  }

  /** From the moment a thread arms the deadline, whatever every thread does after it, time never
      passes the deadline: no more than `WIPE_DEADLINE` units go by before the machine is off. */
  lemma BoundedWipe(acts: seq<Action>, t: Thread, more: seq<Action>)
    requires Run(acts + [Wipe(t, Arm(true))] + more).Some?
    ensures Run(acts).Some?
    ensures Ticks(more) <= WIPE_DEADLINE
    ensures Run(acts + [Wipe(t, Arm(true))] + more).value.now <= Run(acts).value.now + WIPE_DEADLINE
  {
    hide Enabled, Apply, Inv;
    var armed, a := acts + [Wipe(t, Arm(true))], Wipe(t, Arm(true));
    RunPrefix(armed, more);
    RunPrefix(acts, [a]);
    RunExtends(acts, a);
    ArmingSets(Run(acts).value, t);
    ArmedStaysArmed(armed, more);
    RunsKeepInv(armed + more);
    PartsOf(Run(armed + more).value);
  }

  lemma ArmingSets(s: State, t: Thread)
    requires Enabled(s, Wipe(t, Arm(true)))
    ensures Apply(s, Wipe(t, Arm(true))).deadline == Some(s.now + WIPE_DEADLINE)
    ensures Apply(s, Wipe(t, Arm(true))).now == s.now
  {
    WipeTouches(s, t, Arm(true));
  }

  /** An armed wipe ends on time even if every other thread hangs: the clock and the deadline
      thread are enough. */
  lemma {:induction false} HungWipeStillPowersOff(acts: seq<Action>, s: State) returns (more: seq<Action>)
    requires Reaches(acts, s) && s.off.None? && s.deadline.Some?
    ensures forall a :: a in more ==> a == World(Tick) || a == World(DeadlineFires)
    ensures Run(acts + more).Some?
    ensures var end := Run(acts + more).value;
      end.off == Some(DeadlineExpired) && end.offAt == s.deadline.value
    decreases s.deadline.value - s.now
  {
    hide Enabled, Apply, Inv, Run, WatchdogInv;
    RunsKeepInv(acts);
    PartsOf(s);
    ClockSteps(s);
    if DeadlineDue(s) {
      more := [World(DeadlineFires)];
      RunExtends(acts, World(DeadlineFires));
    } else {
      RunExtends(acts, World(Tick));
      var rest := HungWipeStillPowersOff(acts + [World(Tick)], Apply(s, World(Tick)));
      more := [World(Tick)] + rest;
      assert acts + more == (acts + [World(Tick)]) + rest;
    }
  }

  /** Once a deadline is armed nothing the threads do can keep the machine on: whatever has happened
      since, the clock and the deadline thread alone can still switch it off, and the whole of it
      takes no longer than `WIPE_DEADLINE`. */
  lemma OffStaysInReach(acts: seq<Action>, t: Thread, more: seq<Action>) returns (rest: seq<Action>)
    requires Run(acts + [Wipe(t, Arm(true))] + more).Some?
    ensures forall a :: a in rest ==> a == World(Tick) || a == World(DeadlineFires)
    ensures Run(acts + [Wipe(t, Arm(true))] + (more + rest)).Some?
    ensures Run(acts + [Wipe(t, Arm(true))] + (more + rest)).value.off.Some?
    ensures Ticks(more + rest) <= WIPE_DEADLINE
  {
    hide Enabled, Apply, Inv, Run, Ticks;
    var armed := acts + [Wipe(t, Arm(true))];
    var s := Run(armed + more).value;
    rest := [];
    if s.off.None? {
      StillArmed(acts, t, more);
      rest := HungWipeStillPowersOff(armed + more, s);
    }
    assert armed + more + rest == armed + (more + rest);
    assert armed + more + [] == armed + more;
    BoundedWipe(acts, t, more + rest);
  }

  lemma StillArmed(acts: seq<Action>, t: Thread, more: seq<Action>)
    requires Run(acts + [Wipe(t, Arm(true))] + more).Some?
    ensures Run(acts + [Wipe(t, Arm(true))] + more).value.deadline.Some?
  {
    hide Enabled, Apply, Inv;
    var armed := acts + [Wipe(t, Arm(true))];
    RunPrefix(armed, more);
    RunPrefix(acts, [Wipe(t, Arm(true))]);
    RunExtends(acts, Wipe(t, Arm(true)));
    ArmingSets(Run(acts).value, t);
    ArmedStaysArmed(armed, more);
  }

  lemma ClockSteps(s: State)
    requires s.off.None?
    ensures DeadlineDue(s) <==> Enabled(s, World(DeadlineFires))
    ensures DeadlineDue(s) <==> !Enabled(s, World(Tick))
    ensures DeadlineDue(s) ==> Apply(s, World(DeadlineFires)) == s.(off := Some(DeadlineExpired), offAt := s.now)
    ensures !DeadlineDue(s) ==> Apply(s, World(Tick)) == s.(now := s.now + 1)
  {
  }

  /** Settling costs no time once nothing runs: from wherever the app is no longer running, reaping what is
      left, one process after another, brings the thread to its scrub without a tick of the clock. */
  lemma {:induction false} SettlesAtOnce(acts: seq<Action>, s: State, t: Thread) returns (more: seq<Action>)
    requires Reaches(acts, s) && s.off.None? && !s.app.Running?
    requires TailOf(s, t).Some? && TailOf(s, t).value.Settling?
    ensures forall a :: a in more ==> a.Wipe? && a.t == t
    ensures Run(acts + more).Some? && TailOf(Run(acts + more).value, t) == Some(AtScrub)
    decreases s.others, if s.app.Zombie? then 1 else 0
  {
    var step := if s.app.Zombie? then ReapSome else if s.others > 0 then ReapOther else EndSettle;
    SettlingStep(s, t, step);
    hide Enabled, Apply, Run, TailOf;
    RunExtends(acts, Wipe(t, step));
    more := [Wipe(t, step)];
    if !step.EndSettle? {
      var rest := SettlesAtOnce(acts + more, Apply(s, Wipe(t, step)), t);
      assert acts + (more + rest) == (acts + more) + rest;
      more := more + rest;
    }
  }

  lemma SettlingStep(s: State, t: Thread, step: WipeStep)
    requires s.off.None? && !s.app.Running? && TailOf(s, t).Some? && TailOf(s, t).value.Settling?
    requires step == if s.app.Zombie? then ReapSome else if s.others > 0 then ReapOther else EndSettle
    ensures Enabled(s, Wipe(t, step))
    ensures var n := Apply(s, Wipe(t, step));
      && n.off.None? && !n.app.Running?
      && TailOf(n, t) == (if step.EndSettle? then Some(AtScrub) else TailOf(s, t))
      && n.others == s.others - (if step.ReapOther? then 1 else 0)
      && (n.app.Zombie? ==> s.app.Zombie? && !step.ReapSome?)
  {
  }

  // ----- the watchdog ------------------------------------------------------------------------

  /** When the watchdog declares a compromise, the app did exit, and not because of the watcher's
      SIGTERM nor of the wipe's SIGKILL; the branch for having no children left is never taken. */
  lemma NoMisclassifiedExit(acts: seq<Action>, s: State)
    requires Reaches(acts, s) && Enabled(s, Dog(Decide)) && Apply(s, Dog(Decide)).main.FatalShutdown?
    ensures s.main.result == AppPid && s.app == Reaped(OnItsOwn)
  {
    RunsKeepInv(acts);
  }

  /** No exit goes unnoticed: the watchdog is never back in its wait with the app reaped and no
      shutdown under way. */
  lemma NoUnnoticedExit(acts: seq<Action>, s: State)
    requires Reaches(acts, s) && s.main.Waiting? && s.app.Reaped?
    ensures s.shuttingDown
  {
    RunsKeepInv(acts);
  }

  // ----- the race the interlock is there for -------------------------------------------------

  lemma Next(acts: seq<Action>, s: State, a: Action) returns (longer: seq<Action>, after: State)
    requires Reaches(acts, s) && Enabled(s, a)
    ensures longer == acts + [a] && after == Apply(s, a) && Reaches(longer, after)
  {
    RunExtends(acts, a);
    longer, after := acts + [a], Apply(s, a);
  }

  lemma SupervisedApp() returns (acts: seq<Action>, s: State)
    ensures Reaches(acts, s)
    ensures s == INITIAL.(armed := true, app := Running, main := Waiting, watcher := SettingUp)
  {
    assert Reaches([], INITIAL);
    hide Run;
    acts, s := Next([], INITIAL, Boot(InstallHandler));
    acts, s := Next(acts, s, Boot(StartApp));
    acts, s := Next(acts, s, Boot(SpawnWatcher(true)));
  }

  /** A boot that gets as far as the watcher's epoll wait. */
  lemma BootedRun() returns (acts: seq<Action>, s: State)
    ensures Reaches(acts, s)
    ensures s == INITIAL.(armed := true, app := Running, main := Waiting, watcher := InEpoll, published := true)
  {
    hide Run;
    acts, s := SupervisedApp();
    acts, s := Next(acts, s, Watch(SetUp(true)));
    acts, s := Next(acts, s, Watch(Publish));
    acts, s := Next(acts, s, Watch(CheckReceived));
    acts, s := Next(acts, s, Watch(AddDevices(true)));
  }

  /** The app dies by itself, and the power button is pressed once the watchdog has read the flag. */
  lemma DyingAppAndPowerButton() returns (acts: seq<Action>, s: State)
    ensures Reaches(acts, s)
    ensures s == INITIAL.(armed := true, published := true, shuttingDown := true, app := Reaped(OnItsOwn),
                          main := Deciding(AppPid, false), watcher := Flagged)
  {
    hide Run;
    acts, s := BootedRun();
    acts, s := Next(acts, s, World(AppExits(OnItsOwn)));
    acts, s := Next(acts, s, Dog(WaitReturns(AppPid)));
    acts, s := Next(acts, s, Dog(LoadFlag));
    acts, s := Next(acts, s, Watch(PowerButton));
    acts, s := Next(acts, s, Watch(StoreShutdown));
  }

  lemma WatcherWipes(acts: seq<Action>, s: State) returns (longer: seq<Action>, after: State)
    requires Reaches(acts, s) && s.off.None? && s.watcher.Flagged? && AppGone(s) && !s.wipeStarted && s.log == []
    ensures Reaches(longer, after) && after.off.None? && after.main == s.main
    ensures after.wipeStarted && after.log == [DeadlineArmed, KilledAll]
  {
    hide Run;
    longer, after := Next(acts, s, Watch(SendTerm));
    longer, after := Next(longer, after, Watch(EndGrace));
    longer, after := Next(longer, after, Wipe(TheWatcher, Swap));
    longer, after := Next(longer, after, Wipe(TheWatcher, Arm(true)));
    longer, after := Next(longer, after, Wipe(TheWatcher, KillAll));
  }

  /** The watcher is wiping when PID 1 comes to the interlock, and the wipe is cut short: that a
      shutdown completes its wipe whatever happens is more than the protocol promises. */
  lemma SecondEntryCutsAWipeShort() returns (acts: seq<Action>, s: State)
    ensures Reaches(acts, s) && s.off == Some(SecondEntry) && s.log == [DeadlineArmed, KilledAll]
  {
    hide Run;
    acts, s := DyingAppAndPowerButton();
    acts, s := WatcherWipes(acts, s);
    acts, s := Next(acts, s, Dog(Decide));
    acts, s := Next(acts, s, Dog(StoreFatal));
    acts, s := Next(acts, s, Wipe(PidOne, Swap));
  }

  // ----- an orderly stop ---------------------------------------------------------------------

  lemma SigtermSent() returns (acts: seq<Action>, s: State)
    ensures Reaches(acts, s)
    ensures s == INITIAL.(armed := true, published := true, shuttingDown := true, termSent := true,
                          app := Running, main := Waiting, watcher := InGrace(SIGTERM_GRACE))
  {
    hide Run;
    acts, s := BootedRun();
    acts, s := Next(acts, s, Watch(PowerButton));
    acts, s := Next(acts, s, Watch(StoreShutdown));
    acts, s := Next(acts, s, Watch(SendTerm));
  }

  /** The app obeys, and the watchdog sees it go. */
  lemma AppObeys() returns (acts: seq<Action>, s: State)
    ensures Reaches(acts, s)
    ensures s == INITIAL.(armed := true, published := true, shuttingDown := true, termSent := true,
                          app := Reaped(ByTerm), main := Waiting, watcher := InGrace(SIGTERM_GRACE))
  {
    hide Run;
    acts, s := SigtermSent();
    acts, s := Next(acts, s, World(AppExits(ByTerm)));
    acts, s := Next(acts, s, Dog(WaitReturns(AppPid)));
    acts, s := Next(acts, s, Dog(LoadFlag));
    acts, s := Next(acts, s, Dog(Decide));
  }

  /** The watcher wipes alone. */
  lemma WatcherKills(acts: seq<Action>, s: State) returns (longer: seq<Action>, after: State)
    requires Reaches(acts, s) && s.off.None? && s.watcher.InGrace? && EveryoneGone(s) && !s.wipeStarted
    ensures Reaches(longer, after) && after.off.None? && after.main == s.main && after.app == s.app && EveryoneGone(after)
    ensures after.watcher.WatcherTail? && after.watcher.tail.Settling?
  {
    hide Run;
    longer, after := Next(acts, s, Watch(EndGrace));
    longer, after := Next(longer, after, Wipe(TheWatcher, Swap));
    longer, after := Next(longer, after, Wipe(TheWatcher, Arm(true)));
    longer, after := Next(longer, after, Wipe(TheWatcher, KillAll));
  }

  /** The protocol can do what it is for: a stop that ends with the whole wipe done, the app's exit
      not taken for a compromise, and PID 1 still in its wait. */
  lemma OrderlyStop() returns (acts: seq<Action>, s: State)
    ensures Reaches(acts, s) && s.off == Some(Completed) && s.app == Reaped(ByTerm) && s.main.Waiting?
  {
    hide Run;
    acts, s := AppObeys();
    acts, s := WatcherKills(acts, s);
    acts, s := Next(acts, s, Wipe(TheWatcher, EndSettle));
    acts, s := Next(acts, s, Wipe(TheWatcher, Scrub));
    acts, s := Next(acts, s, Wipe(TheWatcher, FinalPowerOff));
  }
}
