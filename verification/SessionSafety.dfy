/**
 What every step of the signaling session keeps: the order of a finish, where each call's result comes
 from, what the workers have seen, and the events.
 */
module SessionSafety {
  import opened Wire
  import opened SessionCore
  import opened SessionMachine

  //
  // The order of a finish: cause published, then done closed, then the context cancelled.
  //

  ghost predicate OrderInv(core: Core, parentCancelled: bool) {
    && (core.closed <==> core.terminal.Some?)
    && (core.closed <==> !core.finish.NotBegun?)
    && (core.closed ==> core.pending == map[])
    && core.doneClosed == (if core.finish.Cancelling? || core.finish.Over? then 1 else 0)
    && (core.cancelled <==> parentCancelled || core.finish.Over?)
  }

  // What a step can never take back.
  ghost predicate Grows(core: Core, core': Core) {
    && (core.closed ==> core'.closed && core'.terminal == core.terminal)
    && core.doneClosed <= core'.doneClosed
    && (core.cancelled ==> core'.cancelled)
  }

  ghost predicate KeepsOrder(core: Core, parent: bool, core': Core, parent': bool) {
    OrderInv(core', parent') && Grows(core, core') && (parent ==> parent')
  }

  lemma CallKeepsOrder(cfg: Config, s: State, x: nat, c: Call, m: CallMove)
    requires OrderInv(s.core, s.parentCancelled) && CallEnabled(s.core, x, c, m)
    ensures KeepsOrder(s.core, s.parentCancelled, CallStep(cfg, s, x, c, m).0, s.parentCancelled)
  {
  }

  lemma HeartbeatKeepsOrder(cfg: Config, s: State, m: HeartbeatMove)
    requires OrderInv(s.core, s.parentCancelled) && HeartbeatEnabled(s, m)
    ensures var s' := HeartbeatStep(cfg, s, m); KeepsOrder(s.core, s.parentCancelled, s'.core, s'.parentCancelled)
  {
  }

  lemma ExpiryKeepsOrder(cfg: Config, s: State, m: ExpiryMove)
    requires OrderInv(s.core, s.parentCancelled) && ExpiryEnabled(cfg, s, m)
    ensures var s' := ExpiryStep(cfg, s, m); KeepsOrder(s.core, s.parentCancelled, s'.core, s'.parentCancelled)
  {
  }

  lemma FinishKeepsOrder(core: Core, parent: bool, m: FinishMove)
    requires OrderInv(core, parent) && FinishEnabled(core, m)
    ensures KeepsOrder(core, parent, FinishStep(core, m), parent)
  {
  }

  lemma EnvKeepsOrder(cfg: Config, s: State, m: EnvMove)
    requires OrderInv(s.core, s.parentCancelled) && EnvEnabled(s, m)
    ensures var s' := EnvStep(cfg, s, m); KeepsOrder(s.core, s.parentCancelled, s'.core, s'.parentCancelled)
  {
  }

  lemma NextKeepsOrder(cfg: Config, s: State, a: Action)
    requires OrderInv(s.core, s.parentCancelled) && Enabled(cfg, s, a)
    ensures var s' := Next(cfg, s, a); KeepsOrder(s.core, s.parentCancelled, s'.core, s'.parentCancelled)
  {
    match a {
      case OfCall(x, m) => CallKeepsOrder(cfg, s, x, CallOf(s.calls, x), m);
      case OfHeartbeat(m) => HeartbeatKeepsOrder(cfg, s, m);
      case OfExpiry(m) => ExpiryKeepsOrder(cfg, s, m);
      case OfFinish(m) => FinishKeepsOrder(s.core, s.parentCancelled, m);
      case OfEnvironment(m) => EnvKeepsOrder(cfg, s, m);
    }
  }

  //
  // Where a call's result comes from.
  //

  // What a call's own context was cancelled with: by its caller, by its deadline, or by its watcher
  // with the session's cause.
  ghost predicate CauseOk(core: Core, cause: Error) {
    IsCallersCause(cause) || core.terminal == Some(cause)
  }

  // Errors that a call gets from its own send, and the session's cause.
  ghost predicate IsSendError(core: Core, e: Error) {
    e == Expired || e == Interrupted || e.Other? || core.terminal == Some(e)
  }

  // Never another call's cause, and, once the write was cut off, the call's own or the session's.
  ghost predicate ErrorOk(core: Core, parentCancelled: bool, c: Call, e: Error) {
    && (IsCancellation(e) ==> parentCancelled)
    && (IsCallersCause(e) ==> c.cause == Some(e))
    && (c.cause == Some(e) || IsSendError(core, e))
    && (c.interrupted && !parentCancelled ==> c.cause == Some(e) || core.terminal == Some(e))
  }

  ghost predicate OutcomeOk(core: Core, parentCancelled: bool, c: Call, o: Outcome) {
    if o.Failed? then ErrorOk(core, parentCancelled, c, o.error) else !c.interrupted
  }

  ghost predicate CallOk(core: Core, parentCancelled: bool, c: Call) {
    && (c.cause.Some? ==> CauseOk(core, c.cause.value))
    && (c.pc.Absent? ==> c.cause.None? && !c.watching)
    && (c.interrupted ==> c.pc.SendFailed? || c.pc.CauseChecked? || c.pc.Leaving? || c.pc.Returned?)
    && (c.pc.SendFailed? || c.pc.CauseChecked? ==> !IsCallersCause(c.pc.error) && IsSendError(core, c.pc.error))
    && (c.pc.SendFailed? && (c.interrupted || IsCancellation(c.pc.error)) ==> c.cause.Some? || core.cancelled)
    && (c.pc.CauseChecked? && (c.interrupted || IsCancellation(c.pc.error)) ==> core.cancelled)
    && (c.pc.Leaving? || c.pc.Returned? ==> OutcomeOk(core, parentCancelled, c, c.pc.outcome))
  }

  // The terminal cause is no call's own cause, and an internal cancellation only when the parent
  // context was cancelled.
  ghost predicate TerminalOk(core: Core, parentCancelled: bool) {
    core.terminal.Some? ==>
      && !IsCallersCause(core.terminal.value)
      && (IsCancellation(core.terminal.value) ==> parentCancelled)
  }

  ghost predicate CallsInv(s: State) {
    forall x | x in s.calls :: CallOk(s.core, s.parentCancelled, s.calls[x])
  }

  // The moves of a call that can end it.
  predicate IsEnding(m: CallMove) {
    m.LookCause? || m.LookDone? || m.TakeReply? || m.SeeContext? || m.SeeDone? || m.Leave? || m.Enroll?
  }

  lemma EndingStepOk(cfg: Config, s: State, x: nat, c: Call, m: CallMove)
    requires OrderInv(s.core, s.parentCancelled) && TerminalOk(s.core, s.parentCancelled)
    requires CallOk(s.core, s.parentCancelled, c) && CallEnabled(s.core, x, c, m) && IsEnding(m)
    ensures CallOk(CallStep(cfg, s, x, c, m).0, s.parentCancelled, CallStep(cfg, s, x, c, m).1)
  {
  }

  // The moves that give a call's context its cause, or watch for one.
  predicate IsWatching(m: CallMove) {
    m.CallerCancels? || m.WatchDone? || m.WatchTimeout? || m.WatchContext?
  }

  lemma WatchingStepOk(cfg: Config, s: State, x: nat, c: Call, m: CallMove)
    requires OrderInv(s.core, s.parentCancelled) && TerminalOk(s.core, s.parentCancelled)
    requires CallOk(s.core, s.parentCancelled, c) && CallEnabled(s.core, x, c, m) && IsWatching(m)
    ensures CallOk(CallStep(cfg, s, x, c, m).0, s.parentCancelled, CallStep(cfg, s, x, c, m).1)
  {
  }

  lemma SendingStepOk(cfg: Config, s: State, x: nat, c: Call, m: CallMove)
    requires OrderInv(s.core, s.parentCancelled) && TerminalOk(s.core, s.parentCancelled)
    requires CallOk(s.core, s.parentCancelled, c) && CallEnabled(s.core, x, c, m) && !IsEnding(m) && !IsWatching(m)
    ensures CallOk(CallStep(cfg, s, x, c, m).0, s.parentCancelled, CallStep(cfg, s, x, c, m).1)
  {
  }

  lemma NoCallOk(core: Core, parent: bool)
    ensures CallOk(core, parent, NO_CALL)
  {
  }

  lemma CallStepOk(cfg: Config, s: State, x: nat, m: CallMove)
    requires OrderInv(s.core, s.parentCancelled) && TerminalOk(s.core, s.parentCancelled) && CallsInv(s)
    requires CallEnabled(s.core, x, CallOf(s.calls, x), m)
    ensures var step := CallStep(cfg, s, x, CallOf(s.calls, x), m); CallOk(step.0, s.parentCancelled, step.1)
  {
    var c := CallOf(s.calls, x);
    NoCallOk(s.core, s.parentCancelled);
    if IsEnding(m) {
      EndingStepOk(cfg, s, x, c, m);
    } else if IsWatching(m) {
      WatchingStepOk(cfg, s, x, c, m);
    } else {
      SendingStepOk(cfg, s, x, c, m);
    }
  }

  lemma CallsStayOk(s: State, s': State)
    requires OrderInv(s.core, s.parentCancelled)
    requires KeepsOrder(s.core, s.parentCancelled, s'.core, s'.parentCancelled) && CallsInv(s)
    requires forall x | x in s'.calls ::
      (x in s.calls && s'.calls[x] == s.calls[x]) || CallOk(s'.core, s'.parentCancelled, s'.calls[x])
    ensures CallsInv(s')
  {
  }

  lemma OthersLeaveCalls(cfg: Config, s: State, a: Action)
    requires Enabled(cfg, s, a) && !a.OfCall?
    ensures Next(cfg, s, a).calls == s.calls
  {
  }

  lemma NextKeepsCalls(cfg: Config, s: State, a: Action)
    requires OrderInv(s.core, s.parentCancelled) && TerminalOk(s.core, s.parentCancelled) && CallsInv(s)
    requires Enabled(cfg, s, a)
    ensures CallsInv(Next(cfg, s, a))
  {
    NextKeepsOrder(cfg, s, a);
    if a.OfCall? {
      CallStepOk(cfg, s, a.call, a.move);
    } else {
      OthersLeaveCalls(cfg, s, a);
    }
    CallsStayOk(s, Next(cfg, s, a));
  }

  //
  // The workers.
  //

  ghost predicate IsLost(cfg: Config, s: State) {
    s.checkedAge >= MISSED_HEARTBEATS * cfg.heartbeat
  }

  ghost predicate IsOutsideCause(cause: Option<Error>) {
    cause != Some(HeartbeatLost) && (cause.Some? ==> !IsCancellation(cause.value) && !IsCallersCause(cause.value))
  }

  predicate IsSending(pc: WorkerPc) {
    pc.SendClosed? || pc.SendExpiry? || pc.SendWriting?
  }

  ghost predicate WorkersInv(cfg: Config, s: State) {
    && (s.heartbeat.Failing? && IsCancellation(s.heartbeat.error) ==> s.core.cancelled)
    && (s.heartbeat.Failing? ==> !IsCallersCause(s.heartbeat.error))
    && (s.heartbeat == Failing(HeartbeatLost) ==> IsLost(cfg, s))
    && (s.expiry.Selecting? || s.expiry.Failing? || s.expiry.Finishing? || s.expiry.Gone?)
    && (s.expiry.Failing? ==> s.expiry.error == Expired || (s.expiry.error == SessionCancelled && s.core.cancelled))
    && (s.core.terminal == Some(HeartbeatLost) ==> (s.heartbeat.Finishing? || s.heartbeat.Gone?) && IsLost(cfg, s))
  }

  lemma CallKeepsTerminal(cfg: Config, s: State, x: nat, c: Call, m: CallMove)
    requires CallEnabled(s.core, x, c, m)
    ensures var t := CallStep(cfg, s, x, c, m).0.terminal; t == s.core.terminal || t == Some(Expired)
  {
  }

  lemma HeartbeatKeepsWorkers(cfg: Config, s: State, m: HeartbeatMove)
    requires OrderInv(s.core, s.parentCancelled) && WorkersInv(cfg, s) && TerminalOk(s.core, s.parentCancelled)
    requires HeartbeatEnabled(s, m)
    ensures var s' := HeartbeatStep(cfg, s, m); WorkersInv(cfg, s') && TerminalOk(s'.core, s'.parentCancelled)
  {
  }

  lemma ExpiryKeepsWorkers(cfg: Config, s: State, m: ExpiryMove)
    requires OrderInv(s.core, s.parentCancelled) && WorkersInv(cfg, s) && TerminalOk(s.core, s.parentCancelled)
    requires ExpiryEnabled(cfg, s, m)
    ensures var s' := ExpiryStep(cfg, s, m); WorkersInv(cfg, s') && TerminalOk(s'.core, s'.parentCancelled)
  {
  }

  // Steps of the other threads: the workers stand still, and the cause, if new, is not one of theirs.
  lemma OthersKeepWorkers(cfg: Config, s: State, s': State)
    requires WorkersInv(cfg, s) && TerminalOk(s.core, s.parentCancelled)
    requires KeepsOrder(s.core, s.parentCancelled, s'.core, s'.parentCancelled)
    requires s'.heartbeat == s.heartbeat && s'.expiry == s.expiry && s'.checkedAge == s.checkedAge
    requires s'.core.terminal == s.core.terminal || IsOutsideCause(s'.core.terminal)
    ensures WorkersInv(cfg, s') && TerminalOk(s'.core, s'.parentCancelled)
  {
  }

  lemma EnvKeepsTerminal(cfg: Config, s: State, m: EnvMove)
    requires EnvEnabled(s, m)
    ensures var t := EnvStep(cfg, s, m).core.terminal;
            t == s.core.terminal || IsOutsideCause(t)
  {
  }

  lemma NextKeepsWorkers(cfg: Config, s: State, a: Action)
    requires OrderInv(s.core, s.parentCancelled) && WorkersInv(cfg, s) && TerminalOk(s.core, s.parentCancelled)
    requires Enabled(cfg, s, a)
    ensures var s' := Next(cfg, s, a); WorkersInv(cfg, s') && TerminalOk(s'.core, s'.parentCancelled)
  {
    NextKeepsOrder(cfg, s, a);
    match a {
      case OfHeartbeat(m) => HeartbeatKeepsWorkers(cfg, s, m);
      case OfExpiry(m) => ExpiryKeepsWorkers(cfg, s, m);
      case OfCall(x, m) =>
        CallKeepsTerminal(cfg, s, x, CallOf(s.calls, x), m);
        OthersKeepWorkers(cfg, s, Next(cfg, s, a));
      case OfFinish(m) => OthersKeepWorkers(cfg, s, Next(cfg, s, a));
      case OfEnvironment(m) =>
        EnvKeepsTerminal(cfg, s, m);
        OthersKeepWorkers(cfg, s, Next(cfg, s, a));
    }
  }

  // After the cancel the heartbeat worker takes at most one more tick.
  ghost predicate WakesInv(s: State) {
    && s.lateWakes <= 1
    && (s.lateWakes == 1 ==> s.core.cancelled && !s.heartbeat.Selecting? && !IsSending(s.heartbeat))
  }

  lemma HeartbeatKeepsWakes(cfg: Config, s: State, m: HeartbeatMove)
    requires WakesInv(s) && HeartbeatEnabled(s, m)
    ensures WakesInv(HeartbeatStep(cfg, s, m))
  {
  }

  lemma OthersLeaveHeartbeat(cfg: Config, s: State, a: Action)
    requires Enabled(cfg, s, a) && !a.OfHeartbeat?
    ensures Next(cfg, s, a).heartbeat == s.heartbeat && Next(cfg, s, a).lateWakes == s.lateWakes
  {
  }

  lemma NextKeepsWakes(cfg: Config, s: State, a: Action)
    requires OrderInv(s.core, s.parentCancelled) && WakesInv(s) && Enabled(cfg, s, a)
    ensures WakesInv(Next(cfg, s, a))
  {
    if a.OfHeartbeat? {
      HeartbeatKeepsWakes(cfg, s, a.beat);
    } else {
      NextKeepsOrder(cfg, s, a);
      OthersLeaveHeartbeat(cfg, s, a);
    }
  }

  //
  // Events.
  //

  ghost predicate EventsInv(s: State) {
    s.accepted == s.received + s.core.events && |s.core.events| <= EVENT_QUEUE_CAPACITY
  }

  lemma CallLeavesEvents(cfg: Config, s: State, x: nat, c: Call, m: CallMove)
    requires CallEnabled(s.core, x, c, m)
    ensures CallStep(cfg, s, x, c, m).0.events == s.core.events
  {
  }

  lemma HandleQueues(cfg: Config, core: Core, m: Message, now: int)
    ensures var h := Handle(cfg, core, m, now);
            && h.core.events == core.events + (if IsForQueue(cfg, core, m) && h.error.None? then [m] else [])
            && (h.core.events != core.events ==> |core.events| < EVENT_QUEUE_CAPACITY)
  {
  }

  lemma EnvKeepsEvents(cfg: Config, s: State, m: EnvMove)
    requires EventsInv(s) && EnvEnabled(s, m)
    ensures EventsInv(EnvStep(cfg, s, m))
  {
    if m.Incoming? {
      HandleQueues(cfg, s.core, m.message, s.now);
    }
  }

  lemma OthersLeaveEvents(cfg: Config, s: State, a: Action)
    requires Enabled(cfg, s, a) && !a.OfEnvironment?
    ensures var s' := Next(cfg, s, a);
            s'.core.events == s.core.events && s'.accepted == s.accepted && s'.received == s.received
  {
    if a.OfCall? {
      CallLeavesEvents(cfg, s, a.call, CallOf(s.calls, a.call), a.move);
    }
  }

  lemma NextKeepsEvents(cfg: Config, s: State, a: Action)
    requires EventsInv(s) && Enabled(cfg, s, a)
    ensures EventsInv(Next(cfg, s, a))
  {
    if a.OfEnvironment? {
      EnvKeepsEvents(cfg, s, a.env);
    } else {
      OthersLeaveEvents(cfg, s, a);
    }
  }
}
