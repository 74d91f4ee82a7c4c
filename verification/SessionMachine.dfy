/**
 Every interleaving of the signaling session: any number of Call goroutines with their watchers, the
 reader, the receiver, outside finishers, and the heartbeat and expiry workers, one atomic step at a
 time. The choice of the next step is free; so is the choice of a ready select case.
 */
module SessionMachine {
  import opened Wire
  import opened SessionCore

  datatype Outcome = Replied(reply: Reply) | Failed(error: Error)

  //
  // Threads.
  //

  datatype CallPc =
    | Absent
    | Registering
    | Marshalling
    | CheckingContext
    | CheckingClosed
    | CheckingExpiry
    | Expiring
    | InFinish
    | Writing
    | SendFailed(error: Error)
    | CauseChecked(error: Error)
    | Awaiting
    | Leaving(outcome: Outcome)
    | Returned(outcome: Outcome)

  // `id` is what registering computed; `ordinal` numbers the registrations from 1; `interrupted`
  // remembers a write that was cut off.
  datatype Call = Call(
    pc: CallPc, ordinal: nat, id: string, cause: Option<Error>, watching: bool, interrupted: bool)

  const NO_CALL: Call := Call(Absent, 0, "", None, false, false)

  datatype CallMove =
    | Begin
    | Enroll
    | Marshal(failure: Option<int>)
    | LookContext
    | LookClosed
    | LookExpiry
    | Expire
    | EndExpire
    | Write(failure: Option<int>)
    | StopWrite
    | LookCause
    | LookDone
    | TakeReply
    | SeeContext
    | SeeDone
    | Leave
    | CallerCancels(code: int)
    | WatchDone
    | WatchTimeout
    | WatchContext

  datatype WorkerPc =
    | Selecting
    | Woken
    | Arming
    | SendContext
    | SendClosed
    | SendExpiry
    | SendWriting
    | Failing(error: Error)
    | Finishing
    | Gone

  datatype HeartbeatMove =
    | Wake
    | Check
    | Arm
    | PingContext
    | PingClosed
    | PingExpiry
    | PingWrite(failure: Option<int>)
    | PingStop
    | HeartbeatFinish
    | HeartbeatEnd
    | HeartbeatSeesContext

  datatype ExpiryMove = Timer | ExpirySeesContext | ExpiryFinish | ExpiryEnd

  datatype FinishMove = DeliverTo(call: nat) | CloseDoneChannel | CancelSession

  datatype EnvMove =
    | Advance(ticks: nat)
    | ParentCancel
    | FinishFromOutside(cause: Error)
    | Incoming(message: Message)
    | Receive

  datatype Action =
    | OfCall(call: nat, move: CallMove)
    | OfHeartbeat(beat: HeartbeatMove)
    | OfExpiry(age: ExpiryMove)
    | OfFinish(end: FinishMove)
    | OfEnvironment(env: EnvMove)

  // `checkedAge` is the age of the last pong the heartbeat worker looked at, `lateWakes` counts its
  // ticks taken after the session context was cancelled, `accepted` are the messages that Handle was
  // to queue and took without an error, `received` those that came out of the queue.
  datatype State = State(
    core: Core,
    calls: map<nat, Call>,
    registered: nat,
    parentCancelled: bool,
    start: int,
    now: int,
    tickAt: int,
    heartbeat: WorkerPc,
    checkedAge: int,
    lateWakes: nat,
    expiry: WorkerPc,
    accepted: seq<Message>,
    received: seq<Message>)

  function Initial(cfg: Config, start: int): State {
    State(
      Core(false, None, 0, map[], map[], {}, start, [], 0, false, NotBegun),
      map[], 0, false, start, start, start + cfg.heartbeat, Selecting, 0, 0, Selecting, [], [])
  }

  function CallOf(calls: map<nat, Call>, x: nat): Call {
    if x in calls then calls[x] else NO_CALL
  }

  function IdOf(cfg: Config, ordinal: nat): string {
    RequestId(cfg.control, ordinal % TWO_TO_THE_64)
  }

  //
  // Steps of a call. Each gives the shared state and the call after it.
  //

  predicate IsDone(core: Core) {
    core.doneClosed > 0
  }

  predicate CallEnabled(core: Core, x: nat, c: Call, m: CallMove) {
    match m
    case Begin => c.pc.Absent?
    case Enroll => c.pc.Registering?
    case Marshal(_) => c.pc.Marshalling?
    case LookContext => c.pc.CheckingContext?
    case LookClosed => c.pc.CheckingClosed?
    case LookExpiry => c.pc.CheckingExpiry?
    case Expire => c.pc.Expiring?
    case EndExpire => c.pc.InFinish? && core.finish.Over?
    case Write(_) => c.pc.Writing?
    case StopWrite => c.pc.Writing? && (c.cause.Some? || core.cancelled)
    case LookCause => c.pc.SendFailed?
    case LookDone => c.pc.CauseChecked?
    case TakeReply => c.pc.Awaiting? && Waiting(core, x) > 0 && SentTo(core, x) != []
    case SeeContext => c.pc.Awaiting? && c.cause.Some?
    case SeeDone => c.pc.Awaiting? && IsDone(core)
    case Leave => c.pc.Leaving?
    case CallerCancels(_) => !c.pc.Absent?
    case WatchDone => c.watching && IsDone(core)
    case WatchTimeout => c.watching
    case WatchContext => c.watching && c.cause.Some?
  }

  function TerminalOf(core: Core): Error {
    if core.terminal.Some? then core.terminal.value else Closed
  }

  // The first cause given to a context stays its cause.
  function Cancelled(c: Call, cause: Error): Call {
    if c.cause.Some? then c else c.(cause := Some(cause))
  }

  function CallStep(cfg: Config, s: State, x: nat, c: Call, m: CallMove): (Core, Call)
    requires CallEnabled(s.core, x, c, m)
  {
    var core := s.core;
    match m
    case Begin => (core, Call(Registering, 0, "", None, true, false))
    case Enroll =>
      if core.closed then (core, c.(pc := Returned(Failed(TerminalOf(core)))))
      else
        var id := RequestId(cfg.control, NextSequence(core.sequence));
        (Register(cfg, core, x), c.(pc := Marshalling, ordinal := s.registered + 1, id := id))
    case Marshal(failure) =>
      (core, c.(pc := if failure.Some? then Leaving(Failed(Other(failure.value))) else CheckingContext))
    case LookContext => (core, c.(pc := if c.cause.Some? then SendFailed(Interrupted) else CheckingClosed))
    case LookClosed => (core, c.(pc := if core.closed then SendFailed(TerminalOf(core)) else CheckingExpiry))
    case LookExpiry => (core, c.(pc := if s.now >= s.start + cfg.maxAge then Expiring else Writing))
    case Expire => (BeginFinish(core, Expired), c.(pc := if core.closed then SendFailed(Expired) else InFinish))
    case EndExpire => (core, c.(pc := SendFailed(Expired)))
    case Write(failure) => (core, c.(pc := if failure.Some? then SendFailed(Other(failure.value)) else Awaiting))
    case StopWrite => (core, c.(pc := SendFailed(Interrupted), interrupted := true))
    case LookCause =>
      (core, c.(pc := if c.cause.Some? then Leaving(Failed(c.cause.value)) else CauseChecked(c.pc.error)))
    case LookDone => (core, c.(pc := Leaving(Failed(if IsDone(core) then TerminalOf(core) else c.pc.error))))
    case TakeReply => (core.(taken := core.taken + {x}), c.(pc := Leaving(Replied(SentTo(core, x)[0]))))
    case SeeContext => (core, c.(pc := Leaving(Failed(c.cause.value))))
    case SeeDone => (core, c.(pc := Leaving(Failed(TerminalOf(core)))))
    case Leave => (Forget(core, c.id), c.(pc := Returned(c.pc.outcome)))
    case CallerCancels(code) => (core, Cancelled(c, CallerCause(code)))
    case WatchDone => (core, Cancelled(c, TerminalOf(core)).(watching := false))
    case WatchTimeout => (core, Cancelled(c, DeadlineExceeded).(watching := false))
    case WatchContext => (core, c.(watching := false))
  }

  //
  // Steps of the workers, of the winning finish and of the environment.
  //

  predicate HeartbeatEnabled(s: State, m: HeartbeatMove) {
    match m
    case Wake => s.heartbeat.Selecting? && s.now >= s.tickAt
    case Check => s.heartbeat.Woken?
    case Arm => s.heartbeat.Arming?
    case PingContext => s.heartbeat.SendContext?
    case PingClosed => s.heartbeat.SendClosed?
    case PingExpiry => s.heartbeat.SendExpiry?
    case PingWrite(_) => s.heartbeat.SendWriting?
    case PingStop => s.heartbeat.SendWriting? && s.core.cancelled
    case HeartbeatFinish => s.heartbeat.Failing?
    case HeartbeatEnd => s.heartbeat.Finishing? && s.core.finish.Over?
    case HeartbeatSeesContext => s.heartbeat.Selecting? && s.core.cancelled
  }

  function HeartbeatStep(cfg: Config, s: State, m: HeartbeatMove): State
    requires HeartbeatEnabled(s, m)
  {
    match m
    case Wake => s.(heartbeat := Woken, lateWakes := if s.core.cancelled then s.lateWakes + 1 else s.lateWakes)
    case Check =>
      var age := s.now - s.core.lastPong;
      s.(checkedAge := age,
         heartbeat := if age >= MISSED_HEARTBEATS * cfg.heartbeat then Failing(HeartbeatLost) else Arming)
    case Arm => s.(tickAt := s.now + cfg.heartbeat, heartbeat := SendContext)
    case PingContext => s.(heartbeat := if s.core.cancelled then Failing(SessionCancelled) else SendClosed)
    case PingClosed => s.(heartbeat := if s.core.closed then Failing(TerminalOf(s.core)) else SendExpiry)
    case PingExpiry => s.(heartbeat := if s.now >= s.start + cfg.maxAge then Failing(Expired) else SendWriting)
    case PingWrite(failure) => s.(heartbeat := if failure.Some? then Failing(Other(failure.value)) else Selecting)
    case PingStop => s.(heartbeat := Failing(Interrupted))
    case HeartbeatFinish =>
      s.(core := BeginFinish(s.core, s.heartbeat.error), heartbeat := if s.core.closed then Gone else Finishing)
    case HeartbeatEnd => s.(heartbeat := Gone)
    case HeartbeatSeesContext => s.(heartbeat := Gone)
  }

  predicate ExpiryEnabled(cfg: Config, s: State, m: ExpiryMove) {
    match m
    case Timer => s.expiry.Selecting? && s.now >= s.start + cfg.maxAge
    case ExpirySeesContext => s.expiry.Selecting? && s.core.cancelled
    case ExpiryFinish => s.expiry.Failing?
    case ExpiryEnd => s.expiry.Finishing? && s.core.finish.Over?
  }

  function ExpiryStep(cfg: Config, s: State, m: ExpiryMove): State
    requires ExpiryEnabled(cfg, s, m)
  {
    match m
    case Timer => s.(expiry := Failing(Expired))
    case ExpirySeesContext => s.(expiry := Failing(SessionCancelled))
    case ExpiryFinish =>
      s.(core := BeginFinish(s.core, s.expiry.error), expiry := if s.core.closed then Gone else Finishing)
    case ExpiryEnd => s.(expiry := Gone)
  }

  predicate FinishEnabled(core: Core, m: FinishMove) {
    match m
    case DeliverTo(x) => core.finish.Delivering? && core.terminal.Some? && x in core.finish.left
    case CloseDoneChannel => core.finish == Delivering({})
    case CancelSession => core.finish.Cancelling?
  }

  function FinishStep(core: Core, m: FinishMove): Core
    requires FinishEnabled(core, m)
  {
    match m
    case DeliverTo(x) => Deliver(core, x)
    case CloseDoneChannel => CloseDone(core)
    case CancelSession => CancelContext(core)
  }

  // FinishFromOutside is Close, Fail, or a Send of another goroutine that finds the session expired.
  // An error that comes from outside is Other, whatever it wraps.
  predicate EnvEnabled(s: State, m: EnvMove) {
    match m
    case FinishFromOutside(cause) => !IsCancellation(cause) && cause != HeartbeatLost && !IsCallersCause(cause)
    case Receive => s.core.events != []
    case _ => true
  }

  function EnvStep(cfg: Config, s: State, m: EnvMove): State
    requires EnvEnabled(s, m)
  {
    match m
    case Advance(ticks) => s.(now := s.now + ticks)
    case ParentCancel => s.(parentCancelled := true, core := s.core.(cancelled := true))
    case FinishFromOutside(cause) => s.(core := BeginFinish(s.core, cause))
    case Incoming(message) =>
      var h := Handle(cfg, s.core, message, s.now);
      s.(core := h.core,
         accepted := if IsForQueue(cfg, s.core, message) && h.error.None? then s.accepted + [message] else s.accepted)
    case Receive => s.(core := s.core.(events := s.core.events[1..]), received := s.received + [s.core.events[0]])
  }

  predicate Enabled(cfg: Config, s: State, a: Action) {
    match a
    case OfCall(x, m) => CallEnabled(s.core, x, CallOf(s.calls, x), m)
    case OfHeartbeat(m) => HeartbeatEnabled(s, m)
    case OfExpiry(m) => ExpiryEnabled(cfg, s, m)
    case OfFinish(m) => FinishEnabled(s.core, m)
    case OfEnvironment(m) => EnvEnabled(s, m)
  }

  function Next(cfg: Config, s: State, a: Action): State
    requires Enabled(cfg, s, a)
  {
    match a
    case OfCall(x, m) =>
      var step := CallStep(cfg, s, x, CallOf(s.calls, x), m);
      s.(core := step.0, calls := s.calls[x := step.1],
         registered := if m.Enroll? && !s.core.closed then s.registered + 1 else s.registered)
    case OfHeartbeat(m) => HeartbeatStep(cfg, s, m)
    case OfExpiry(m) => ExpiryStep(cfg, s, m)
    case OfFinish(m) => s.(core := FinishStep(s.core, m))
    case OfEnvironment(m) => EnvStep(cfg, s, m)
  }

  ghost predicate IsStep(cfg: Config, s: State, a: Action, s': State) {
    Enabled(cfg, s, a) && s' == Next(cfg, s, a)
  }

  // The states that some run of these actions passes through, first to last.
  ghost predicate IsRun(cfg: Config, start: int, actions: seq<Action>, states: seq<State>) {
    && |states| == |actions| + 1
    && states[0] == Initial(cfg, start)
    && forall i: nat | i < |actions| :: IsStep(cfg, states[i], actions[i], states[i + 1])
  }
}
