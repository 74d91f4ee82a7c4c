/**
 What the signaling session does for those who use it, over every run: replies reach their calls, calls
 come back, messages get the right answer, pings go out, and a worker's error ends the session.
 */
module SessionService {
  import opened Wire
  import opened SessionCore
  import opened SessionMachine
  import opened SessionSafety
  import opened SessionReplies
  import opened SessionProgress
  import opened SessionGuarantees

  //
  // Replies.
  //

  // The frame carries the command, as it is or wrapped by an outer command without a version.
  predicate Frames(rpc: RpcBody, command: Command) {
    || (rpc.command == Some(command) && command.jsonrpc != "")
    || (rpc.command.Some? && rpc.command.value.jsonrpc == "" && rpc.wrapped == Some(command))
  }

  // A request names a method.
  predicate IsRequest(command: Command) {
    command.jsonrpc == "2.0" && command.request != ""
  }

  // A reply names none, and has an error, or a result with some control session, but not both.
  predicate IsReply(command: Command) {
    && command.jsonrpc == "2.0" && command.request == ""
    && (if command.error.Some? then !command.hasResult
        else command.hasResult && command.resultSession.Some? && command.resultSession.value != "")
  }

  predicate IsForeign(cfg: Config, command: Command) {
    command.error.None? && command.resultSession != Some(cfg.control)
  }

  // An addressed RPC frame for an open session that carries this reply.
  predicate BringsReply(cfg: Config, core: Core, m: Message, command: Command) {
    IsAddressed(cfg, m) && !core.closed && m.kind.Rpc? && Frames(m.rpc, command) && IsReply(command)
  }

  lemma ReplyIsDelivered(cfg: Config, core: Core, m: Message, now: int, command: Command, x: nat)
    requires BringsReply(cfg, core, m, command) && !IsForeign(cfg, command) && IsPending(core, command.id, x)
    ensures var h := Handle(cfg, core, m, now);
            && h.error == None
            && h.core.pending == core.pending - {command.id}
            && (exists r: Reply :: Carries(command, r) && SentTo(h.core, x) == SentTo(core, x) + [r])
            && (forall y: nat | y != x :: SentTo(h.core, y) == SentTo(core, y))
            && h.core.(pending := core.pending, sent := core.sent) == core
  {
    var r := if command.error.Some? then Fault(command.id, command.error.value)
             else Result(command.id, command.resultSession.value);
    var h := Handle(cfg, core, m, now);
    assert Carries(command, r) && SentTo(h.core, x) == SentTo(core, x) + [r];
  }

  lemma StrayReplyIsIgnored(cfg: Config, core: Core, m: Message, now: int, command: Command)
    requires BringsReply(cfg, core, m, command) && (IsForeign(cfg, command) || command.id !in core.pending)
    ensures Handle(cfg, core, m, now) == Handled(core, None)
  {
  }

  /**
   In any run, handling a reply to a pending call, with the own control session if it is a result, puts
   exactly that reply on the call's channel, and a call that waits can take it.
   */
  lemma RepliesReachTheirCalls(
    cfg: Config, start: int, actions: seq<Action>, states: seq<State>, i: nat, m: Message, command: Command, x: nat)
    requires IsRun(cfg, start, actions, states) && i < |actions| && states[i].registered <= TWO_TO_THE_64
    requires actions[i] == OfEnvironment(Incoming(m)) && BringsReply(cfg, states[i].core, m, command)
    requires !IsForeign(cfg, command) && IsPending(states[i].core, command.id, x)
    ensures command.id !in states[i + 1].core.pending
    ensures exists r: Reply :: Carries(command, r) && SentTo(states[i + 1].core, x) == [r]
    ensures CallOf(states[i + 1].calls, x).pc.Awaiting? ==>
              Enabled(cfg, states[i + 1], OfCall(x, TakeReply))
  {
    StepAt(cfg, start, actions, states, i);
    RunKeepsReplies(cfg, start, actions, states, i);
    var core := states[i].core;
    assert EntryOk(cfg, command.id, CallOf(states[i].calls, core.pending[command.id]));
    assert ChannelOk(cfg, core, x, CallOf(states[i].calls, x));
    ReplyIsDelivered(cfg, core, m, states[i].now, command, x);
    var r: Reply :| Carries(command, r) && SentTo(states[i + 1].core, x) == SentTo(core, x) + [r];
    assert SentTo(states[i + 1].core, x) == [r];
  }

  //
  // Answers.
  //

  // No command of the frame is a request or a reply.
  ghost predicate IsMalformed(rpc: RpcBody) {
    forall command :: Frames(rpc, command) ==> !IsRequest(command) && !IsReply(command)
  }

  lemma FramedExactly(rpc: RpcBody)
    ensures CommandOf(rpc).Some? && IsWellFormed(CommandOf(rpc).value) ==>
              Frames(rpc, CommandOf(rpc).value) && !IsMalformed(rpc)
    ensures CommandOf(rpc).None? || !IsWellFormed(CommandOf(rpc).value) ==> IsMalformed(rpc)
  {
    if CommandOf(rpc).Some? && IsWellFormed(CommandOf(rpc).value) {
      assert Frames(rpc, CommandOf(rpc).value);
    }
  }

  // The answer of Handle to every message, in the order of its checks.
  lemma HandleAnswers(cfg: Config, core: Core, m: Message, now: int)
    ensures var h := Handle(cfg, core, m, now);
            && h.error ==
               (if m.dialog != cfg.dialog then None
                else if m.identity == None then Some(BadMessage)
                else if m.identity != Some(Identity(cfg.device, cfg.signal)) then None
                else if core.closed then core.terminal
                else if m.kind == Pong then None
                else if m.kind == Rpc && IsMalformed(m.rpc) then Some(BadMessage)
                else if IsForQueue(cfg, core, m) && |core.events| >= 32 then Some(Backpressure)
                else None)
            && (h.error.Some? ==> h.core == core)
  {
    FramedExactly(m.rpc);
  }

  //
  // Calls.
  //

  // What the own steps of a call use up, its watcher and its caller aside.
  function CallRank(pc: CallPc): nat {
    match pc
    case Absent => 0
    case Registering => 11
    case Marshalling => 10
    case CheckingContext => 9
    case CheckingClosed => 8
    case CheckingExpiry => 7
    case Expiring => 6
    case InFinish => 5
    case Writing => 5
    case SendFailed(_) => 4
    case CauseChecked(_) => 3
    case Awaiting => 2
    case Leaving(_) => 1
    case Returned(_) => 0
  }

  predicate IsOwn(a: Action, x: nat) {
    a.OfCall? && a.call == x && !IsWatching(a.move)
  }

  lemma EndingDescends(cfg: Config, s: State, x: nat, c: Call, m: CallMove)
    requires CallEnabled(s.core, x, c, m) && IsEnding(m)
    ensures CallRank(CallStep(cfg, s, x, c, m).1.pc) < CallRank(c.pc) && !CallStep(cfg, s, x, c, m).1.pc.Absent?
  {
  }

  lemma SendingDescends(cfg: Config, s: State, x: nat, c: Call, m: CallMove)
    requires CallEnabled(s.core, x, c, m) && !IsEnding(m) && !IsWatching(m) && !c.pc.Absent?
    ensures CallRank(CallStep(cfg, s, x, c, m).1.pc) < CallRank(c.pc) && !CallStep(cfg, s, x, c, m).1.pc.Absent?
  {
  }

  lemma WatchingStays(cfg: Config, s: State, x: nat, c: Call, m: CallMove)
    requires CallEnabled(s.core, x, c, m) && IsWatching(m)
    ensures CallStep(cfg, s, x, c, m).1.pc == c.pc
  {
  }

  lemma CallDescends(cfg: Config, s: State, a: Action, x: nat)
    requires Enabled(cfg, s, a) && !CallOf(s.calls, x).pc.Absent?
    ensures var c, c' := CallOf(s.calls, x), CallOf(Next(cfg, s, a).calls, x);
            && !c'.pc.Absent?
            && CallRank(c'.pc) + (if IsOwn(a, x) then 1 else 0) <= CallRank(c.pc)
  {
    if !a.OfCall? {
      OthersLeaveCalls(cfg, s, a);
    } else if a.call == x {
      var c, m := CallOf(s.calls, x), a.move;
      if IsEnding(m) {
        EndingDescends(cfg, s, x, c, m);
      } else if IsWatching(m) {
        WatchingStays(cfg, s, x, c, m);
      } else {
        SendingDescends(cfg, s, x, c, m);
      }
    }
  }

  function OwnSteps(actions: seq<Action>, x: nat): nat {
    if actions == [] then 0
    else OwnSteps(actions[..|actions| - 1], x) + if IsOwn(actions[|actions| - 1], x) then 1 else 0
  }

  // From each state to the next the call uses up what it takes.
  ghost predicate IsSpending(actions: seq<Action>, states: seq<State>, x: nat) {
    forall k: nat | k < |actions| && k + 1 < |states| ::
      !CallOf(states[k].calls, x).pc.Absent? ==>
        && !CallOf(states[k + 1].calls, x).pc.Absent?
        && CallRank(CallOf(states[k + 1].calls, x).pc) + (if IsOwn(actions[k], x) then 1 else 0)
           <= CallRank(CallOf(states[k].calls, x).pc)
  }

  lemma RunIsSpending(cfg: Config, start: int, actions: seq<Action>, states: seq<State>, x: nat)
    requires IsRun(cfg, start, actions, states)
    ensures IsSpending(actions, states, x)
  {
    forall k: nat | k < |actions| && k + 1 < |states| && !CallOf(states[k].calls, x).pc.Absent?
      ensures !CallOf(states[k + 1].calls, x).pc.Absent?
      ensures CallRank(CallOf(states[k + 1].calls, x).pc) + (if IsOwn(actions[k], x) then 1 else 0)
              <= CallRank(CallOf(states[k].calls, x).pc)
    {
      StepAt(cfg, start, actions, states, k);
      CallDescends(cfg, states[k], actions[k], x);
    }
  }

  lemma {:induction false} CallIsBounded(actions: seq<Action>, states: seq<State>, i: nat, j: nat, x: nat)
    requires IsSpending(actions, states, x) && i <= j < |states| && j <= |actions|
    requires !CallOf(states[i].calls, x).pc.Absent?
    ensures !CallOf(states[j].calls, x).pc.Absent?
    ensures OwnSteps(actions[i..j], x) + CallRank(CallOf(states[j].calls, x).pc)
            <= CallRank(CallOf(states[i].calls, x).pc)
  {
    if i < j {
      CallIsBounded(actions, states, i, j - 1, x);
      assert actions[i..j][..j - i - 1] == actions[i..j - 1];
      assert j - 1 + 1 == j;
    }
  }

  function OwnMove(c: Call): CallMove {
    match c.pc
    case Registering => Enroll
    case Marshalling => Marshal(None)
    case CheckingContext => LookContext
    case CheckingClosed => LookClosed
    case CheckingExpiry => LookExpiry
    case Expiring => Expire
    case InFinish => EndExpire
    case Writing => StopWrite
    case SendFailed(_) => LookCause
    case CauseChecked(_) => LookDone
    case Awaiting => if c.cause.Some? then SeeContext else SeeDone
    case _ => Leave
  }

  lemma CallCanGoOn(cfg: Config, s: State, x: nat)
    requires OrderInv(s.core, s.parentCancelled) && s.core.finish.Over?
    requires !CallOf(s.calls, x).pc.Absent? && !CallOf(s.calls, x).pc.Returned?
    ensures Enabled(cfg, s, OfCall(x, OwnMove(CallOf(s.calls, x))))
    ensures IsOwn(OfCall(x, OwnMove(CallOf(s.calls, x))), x)
  {
  }

  lemma CancelledCallCanGoOn(cfg: Config, s: State, x: nat)
    requires CallOf(s.calls, x).cause.Some? && !CallOf(s.calls, x).pc.InFinish?
    requires !CallOf(s.calls, x).pc.Absent? && !CallOf(s.calls, x).pc.Returned?
    ensures Enabled(cfg, s, OfCall(x, OwnMove(CallOf(s.calls, x))))
    ensures IsOwn(OfCall(x, OwnMove(CallOf(s.calls, x))), x)
  {
  }

  /**
   Calls come back. A call takes at most 11 steps of its own, whatever else runs; and it can always take
   the next one once its context has a cause or a finish is over, even out of a blocked write or a wait
   for a reply that never comes. Only a call that itself finishes the session first ends that finish.
   */
  lemma CallsReturn(
    cfg: Config, start: int, actions: seq<Action>, states: seq<State>, i: nat, j: nat, x: nat)
    requires IsRun(cfg, start, actions, states) && i <= j < |states| && !CallOf(states[i].calls, x).pc.Absent?
    ensures OwnSteps(actions[i..j], x) <= 11
    ensures var c := CallOf(states[j].calls, x);
            c.cause.Some? || states[j].core.finish.Over? ==>
              || c.pc.Returned?
              || (c.pc.InFinish? && exists m: FinishMove :: FinishEnabled(states[j].core, m))
              || exists m: CallMove :: IsOwn(OfCall(x, m), x) && Enabled(cfg, states[j], OfCall(x, m))
  {
    RunIsSpending(cfg, start, actions, states, x);
    CallIsBounded(actions, states, i, j, x);
    CallGoesOn(cfg, start, actions, states, j, x);
  }

  lemma CallGoesOn(cfg: Config, start: int, actions: seq<Action>, states: seq<State>, j: nat, x: nat)
    requires IsRun(cfg, start, actions, states) && j < |states| && !CallOf(states[j].calls, x).pc.Absent?
    ensures var c := CallOf(states[j].calls, x);
            c.cause.Some? || states[j].core.finish.Over? ==>
              || c.pc.Returned?
              || (c.pc.InFinish? && exists m: FinishMove :: FinishEnabled(states[j].core, m))
              || exists m: CallMove :: IsOwn(OfCall(x, m), x) && Enabled(cfg, states[j], OfCall(x, m))
  {
    CauseIsOk(cfg, start, actions, states, j, x);
    var s, c := states[j], CallOf(states[j].calls, x);
    if !c.pc.Returned? && s.core.finish.Over? {
      CallCanGoOn(cfg, s, x);
    } else if !c.pc.Returned? && c.cause.Some? && !c.pc.InFinish? {
      CancelledCallCanGoOn(cfg, s, x);
    } else if c.pc.InFinish? {
      FinisherIsClosed(cfg, start, actions, states, j, x);
      SomeFinishMove(s.core);
    }
  }

  // A step that cancels the context of the call with this cause: by its caller, its deadline, or its
  // watcher that saw the session done.
  predicate Cancels(s: State, a: Action, x: nat, e: Error) {
    (IsCallersCause(e) && GivesCause(a, x, e)) || (a == OfCall(x, WatchDone) && s.core.terminal == Some(e))
  }

  lemma CancelStep(cfg: Config, s: State, a: Action, x: nat, e: Error)
    requires Enabled(cfg, s, a) && Cancels(s, a, x, e)
    ensures var c, c' := CallOf(s.calls, x), CallOf(Next(cfg, s, a).calls, x);
            c'.cause == if c.cause.Some? then c.cause else Some(e)
  {
  }

  ghost predicate CausesStay(states: seq<State>, x: nat) {
    forall k: nat | k + 1 < |states| && CallOf(states[k].calls, x).cause.Some? ::
      CallOf(states[k + 1].calls, x).cause == CallOf(states[k].calls, x).cause
  }

  lemma RunKeepsCauses(cfg: Config, start: int, actions: seq<Action>, states: seq<State>, x: nat)
    requires IsRun(cfg, start, actions, states)
    ensures CausesStay(states, x)
  {
    forall k: nat | k + 1 < |states| && CallOf(states[k].calls, x).cause.Some?
      ensures CallOf(states[k + 1].calls, x).cause == CallOf(states[k].calls, x).cause
    {
      StepAt(cfg, start, actions, states, k);
      RunKeepsInv(cfg, start, actions, states, k);
      CauseStays(cfg, states[k], actions[k], x);
    }
  }

  lemma {:induction false} CauseLasts(states: seq<State>, i: nat, j: nat, x: nat)
    requires CausesStay(states, x) && i <= j < |states| && CallOf(states[i].calls, x).cause.Some?
    ensures CallOf(states[j].calls, x).cause == CallOf(states[i].calls, x).cause
  {
    if i < j {
      CauseLasts(states, i, j - 1, x);
      assert j - 1 + 1 == j;
    }
  }

  /** The first cause given to a call's context stays its cause. */
  lemma FirstCauseStays(
    cfg: Config, start: int, actions: seq<Action>, states: seq<State>, i: nat, j: nat, x: nat, e: Error)
    requires IsRun(cfg, start, actions, states) && i < j < |states| && Cancels(states[i], actions[i], x, e)
    ensures var c, c' := CallOf(states[i].calls, x), CallOf(states[j].calls, x);
            c'.cause == if c.cause.Some? then c.cause else Some(e)
  {
    StepAt(cfg, start, actions, states, i);
    CancelStep(cfg, states[i], actions[i], x, e);
    RunKeepsCauses(cfg, start, actions, states, x);
    CauseLasts(states, i + 1, j, x);
  }

  lemma InFinishStep(cfg: Config, s: State, a: Action, x: nat)
    requires Enabled(cfg, s, a) && CallOf(Next(cfg, s, a).calls, x).pc.InFinish?
    ensures CallOf(s.calls, x).pc.InFinish? || Next(cfg, s, a).core.closed
  {
    if !a.OfCall? {
      OthersLeaveCalls(cfg, s, a);
    }
  }

  lemma {:induction false} FinisherIsClosed(
    cfg: Config, start: int, actions: seq<Action>, states: seq<State>, i: nat, x: nat)
    requires IsRun(cfg, start, actions, states) && i < |states| && CallOf(states[i].calls, x).pc.InFinish?
    ensures states[i].core.closed
  {
    if i > 0 {
      ClosedStays(cfg, start, actions, states, i - 1);
      StepAt(cfg, start, actions, states, i - 1);
      InFinishStep(cfg, states[i - 1], actions[i - 1], x);
      if CallOf(states[i - 1].calls, x).pc.InFinish? {
        FinisherIsClosed(cfg, start, actions, states, i - 1, x);
      }
    }
  }

  lemma ClosedStays(cfg: Config, start: int, actions: seq<Action>, states: seq<State>, i: nat)
    requires IsRun(cfg, start, actions, states) && i < |actions|
    ensures states[i].core.closed ==> states[i + 1].core.closed
  {
    RunIsOrdered(cfg, start, actions, states);
    OrderIsLasting(states, i, i + 1);
  }

  // The look of a call that found the session open, and the one that found it young enough.
  predicate FindsOpen(s: State, a: Action, x: nat) {
    a == OfCall(x, LookClosed) && !s.core.closed
  }

  predicate FindsYoung(cfg: Config, s: State, a: Action, x: nat) {
    a == OfCall(x, LookExpiry) && s.now < s.start + cfg.maxAge
  }

  lemma LookStep(cfg: Config, s: State, a: Action, x: nat)
    requires Enabled(cfg, s, a)
    ensures var pc, pc' := CallOf(s.calls, x).pc, CallOf(Next(cfg, s, a).calls, x).pc;
            && (pc'.CheckingExpiry? ==> pc.CheckingExpiry? || FindsOpen(s, a, x))
            && (pc'.Writing? ==> pc.Writing? || (pc.CheckingExpiry? && FindsYoung(cfg, s, a, x)))
  {
    if !a.OfCall? {
      OthersLeaveCalls(cfg, s, a);
    }
  }

  lemma {:induction false} OpenWasFound(
    cfg: Config, start: int, actions: seq<Action>, states: seq<State>, i: nat, x: nat)
    requires IsRun(cfg, start, actions, states) && i < |states| && CallOf(states[i].calls, x).pc.CheckingExpiry?
    ensures exists k: nat :: k < i && FindsOpen(states[k], actions[k], x)
  {
    if i > 0 {
      StepAt(cfg, start, actions, states, i - 1);
      LookStep(cfg, states[i - 1], actions[i - 1], x);
      if CallOf(states[i - 1].calls, x).pc.CheckingExpiry? {
        OpenWasFound(cfg, start, actions, states, i - 1, x);
      }
    }
  }

  /** A call writes only after it found the session open, and then younger than MaxAge. */
  lemma {:induction false} WritesWereAllowed(
    cfg: Config, start: int, actions: seq<Action>, states: seq<State>, i: nat, x: nat)
    requires IsRun(cfg, start, actions, states) && i < |states| && CallOf(states[i].calls, x).pc.Writing?
    ensures exists k: nat, j: nat ::
              k < j < i && FindsOpen(states[k], actions[k], x) && FindsYoung(cfg, states[j], actions[j], x)
  {
    if i > 0 {
      StepAt(cfg, start, actions, states, i - 1);
      LookStep(cfg, states[i - 1], actions[i - 1], x);
      if CallOf(states[i - 1].calls, x).pc.Writing? {
        WritesWereAllowed(cfg, start, actions, states, i - 1, x);
      } else {
        OpenWasFound(cfg, start, actions, states, i - 1, x);
      }
    }
  }

  // A call that has met the maximum age itself, once it is past its own finish.
  predicate MetExpiry(c: Call) {
    c.pc.InFinish? || c.pc == SendFailed(Expired) || c.pc == CauseChecked(Expired)
    || c.pc == Leaving(Failed(Expired)) || c.pc == Returned(Failed(Expired))
  }

  lemma EndingMetExpiry(cfg: Config, s: State, x: nat, c: Call, m: CallMove)
    requires CallEnabled(s.core, x, c, m) && IsEnding(m) && OrderInv(s.core, s.parentCancelled)
    requires c.cause.Some? ==> CauseOk(s.core, c.cause.value)
    requires MetExpiry(CallStep(cfg, s, x, c, m).1)
    ensures MetExpiry(c) || s.core.closed
  {
  }

  lemma OtherMetExpiry(cfg: Config, s: State, x: nat, c: Call, m: CallMove)
    requires CallEnabled(s.core, x, c, m) && !IsEnding(m) && OrderInv(s.core, s.parentCancelled)
    requires MetExpiry(CallStep(cfg, s, x, c, m).1)
    ensures MetExpiry(c) || CallStep(cfg, s, x, c, m).0.closed
  {
  }

  lemma MetExpiryStep(cfg: Config, s: State, a: Action, x: nat)
    requires Enabled(cfg, s, a) && OrderInv(s.core, s.parentCancelled)
    requires CallOf(s.calls, x).cause.Some? ==> CauseOk(s.core, CallOf(s.calls, x).cause.value)
    requires MetExpiry(CallOf(Next(cfg, s, a).calls, x))
    ensures MetExpiry(CallOf(s.calls, x)) || s.core.closed || Next(cfg, s, a).core.closed
  {
    if !a.OfCall? {
      OthersLeaveCalls(cfg, s, a);
    } else if a.call == x {
      if IsEnding(a.move) {
        EndingMetExpiry(cfg, s, x, CallOf(s.calls, x), a.move);
      } else {
        OtherMetExpiry(cfg, s, x, CallOf(s.calls, x), a.move);
      }
    }
  }

  lemma CauseIsOk(cfg: Config, start: int, actions: seq<Action>, states: seq<State>, i: nat, x: nat)
    requires IsRun(cfg, start, actions, states) && i < |states|
    ensures OrderInv(states[i].core, states[i].parentCancelled)
    ensures var cause := CallOf(states[i].calls, x).cause; cause.Some? ==> CauseOk(states[i].core, cause.value)
  {
    RunKeepsInv(cfg, start, actions, states, i);
  }

  /** A call that fails for the maximum age leaves the session closed. */
  lemma {:induction false} ExpiredMeansClosed(
    cfg: Config, start: int, actions: seq<Action>, states: seq<State>, i: nat, x: nat)
    requires IsRun(cfg, start, actions, states) && i < |states| && MetExpiry(CallOf(states[i].calls, x))
    ensures states[i].core.closed
  {
    if i > 0 {
      ClosedStays(cfg, start, actions, states, i - 1);
      StepAt(cfg, start, actions, states, i - 1);
      CauseIsOk(cfg, start, actions, states, i - 1, x);
      MetExpiryStep(cfg, states[i - 1], actions[i - 1], x);
      if MetExpiry(CallOf(states[i - 1].calls, x)) {
        ExpiredMeansClosed(cfg, start, actions, states, i - 1, x);
      }
    }
  }

  //
  // The workers.
  //

  // A step after which the heartbeat worker must end the session, and its cause: a failed ping, a pong
  // three heartbeats old, or the session found past its age.
  predicate MustEndWith(cfg: Config, s: State, a: Action, e: Error) {
    match e
    case Other(code) => a == OfHeartbeat(PingWrite(Some(code)))
    case HeartbeatLost => a == OfHeartbeat(Check) && s.now - s.core.lastPong >= 3 * cfg.heartbeat
    case Expired => a == OfHeartbeat(PingExpiry) && s.now >= s.start + cfg.maxAge
    case _ => false
  }

  lemma MustEndStep(cfg: Config, s: State, a: Action, e: Error)
    requires Enabled(cfg, s, a) && MustEndWith(cfg, s, a, e)
    ensures Next(cfg, s, a).heartbeat == Failing(e)
  {
  }

  lemma FailingStep(cfg: Config, s: State, a: Action, e: Error)
    requires Enabled(cfg, s, a) && s.heartbeat == Failing(e) && !s.core.closed
    ensures if a.OfHeartbeat? then Next(cfg, s, a).core.terminal == Some(e) && Next(cfg, s, a).core.closed
            else Next(cfg, s, a).heartbeat == Failing(e)
  {
    if !a.OfHeartbeat? {
      OthersLeaveHeartbeat(cfg, s, a);
    }
  }

  lemma ExpiryFailingStep(cfg: Config, s: State, a: Action, e: Error)
    requires Enabled(cfg, s, a) && s.expiry == Failing(e) && !s.core.closed
    ensures if a.OfExpiry? then Next(cfg, s, a).core.terminal == Some(e) && Next(cfg, s, a).core.closed
            else Next(cfg, s, a).expiry == Failing(e)
  {
    if a.OfHeartbeat? {
      HeartbeatLeavesExpiry(cfg, s, a.beat);
    } else if !a.OfExpiry? {
      OthersLeaveWorkers(cfg, s, a);
    }
  }

  lemma HeartbeatLeavesExpiry(cfg: Config, s: State, m: HeartbeatMove)
    requires HeartbeatEnabled(s, m)
    ensures HeartbeatStep(cfg, s, m).expiry == s.expiry
  {
  }

  // As long as the session stays open, a worker that is about to end it stays so.
  ghost predicate FailureLasts(states: seq<State>, e: Error) {
    forall k: nat | k + 1 < |states| && !states[k + 1].core.closed ::
      && !states[k].core.closed
      && (states[k].heartbeat == Failing(e) ==> states[k + 1].heartbeat == Failing(e))
      && (states[k].expiry == Failing(e) ==> states[k + 1].expiry == Failing(e))
  }

  lemma RunFailureLasts(cfg: Config, start: int, actions: seq<Action>, states: seq<State>, e: Error)
    requires IsRun(cfg, start, actions, states)
    ensures FailureLasts(states, e)
  {
    forall k: nat | k + 1 < |states| && !states[k + 1].core.closed
      ensures !states[k].core.closed
      ensures states[k].heartbeat == Failing(e) ==> states[k + 1].heartbeat == Failing(e)
      ensures states[k].expiry == Failing(e) ==> states[k + 1].expiry == Failing(e)
    {
      ClosedStays(cfg, start, actions, states, k);
      StepAt(cfg, start, actions, states, k);
      FailingSteps(cfg, states[k], actions[k], e);
    }
  }

  lemma FailingSteps(cfg: Config, s: State, a: Action, e: Error)
    requires Enabled(cfg, s, a) && !s.core.closed && !Next(cfg, s, a).core.closed
    ensures s.heartbeat == Failing(e) ==> Next(cfg, s, a).heartbeat == Failing(e)
    ensures s.expiry == Failing(e) ==> Next(cfg, s, a).expiry == Failing(e)
  {
    if s.heartbeat == Failing(e) {
      FailingStep(cfg, s, a, e);
    }
    if s.expiry == Failing(e) {
      ExpiryFailingStep(cfg, s, a, e);
    }
  }

  lemma {:induction false} StaysFailing(states: seq<State>, e: Error, i: nat, j: nat)
    requires FailureLasts(states, e) && i <= j < |states| && !states[j].core.closed
    ensures states[i].heartbeat == Failing(e) ==> states[j].heartbeat == Failing(e)
    ensures states[i].expiry == Failing(e) ==> states[j].expiry == Failing(e)
    ensures !states[i].core.closed
    decreases j
  {
    if i < j {
      assert j - 1 + 1 == j;
      StaysFailing(states, e, i, j - 1);
    }
  }

  /**
   A failed ping, a lost heartbeat or the age seen by the heartbeat worker ends the session with that
   error: as long as no other finish closes it first the worker is about to, and its next step does.
   */
  lemma HeartbeatErrorsEnd(
    cfg: Config, start: int, actions: seq<Action>, states: seq<State>, i: nat, j: nat, e: Error)
    requires IsRun(cfg, start, actions, states) && i < j < |states| && MustEndWith(cfg, states[i], actions[i], e)
    requires !states[j].core.closed
    ensures states[j].heartbeat == Failing(e) && Enabled(cfg, states[j], OfHeartbeat(HeartbeatFinish))
    ensures j < |actions| && actions[j].OfHeartbeat? ==> states[j + 1].core.terminal == Some(e)
  {
    StepAt(cfg, start, actions, states, i);
    MustEndStep(cfg, states[i], actions[i], e);
    RunFailureLasts(cfg, start, actions, states, e);
    StaysFailing(states, e, i + 1, j);
    if j < |actions| {
      StepAt(cfg, start, actions, states, j);
      FailingStep(cfg, states[j], actions[j], e);
    }
  }

  lemma TimerStep(cfg: Config, s: State)
    requires Enabled(cfg, s, OfExpiry(Timer))
    ensures Next(cfg, s, OfExpiry(Timer)).expiry == Failing(Expired)
  {
  }

  /** The expiry timer ends the session with ErrExpired in the same way. */
  lemma TimerEnds(cfg: Config, start: int, actions: seq<Action>, states: seq<State>, i: nat, j: nat)
    requires IsRun(cfg, start, actions, states) && i < j < |states| && actions[i] == OfExpiry(Timer)
    requires !states[j].core.closed
    ensures states[j].expiry == Failing(Expired) && Enabled(cfg, states[j], OfExpiry(ExpiryFinish))
    ensures j < |actions| && actions[j].OfExpiry? ==> states[j + 1].core.terminal == Some(Expired)
  {
    StepAt(cfg, start, actions, states, i);
    TimerStep(cfg, states[i]);
    RunFailureLasts(cfg, start, actions, states, Expired);
    StaysFailing(states, Expired, i + 1, j);
    if j < |actions| {
      StepAt(cfg, start, actions, states, j);
      ExpiryFailingStep(cfg, states[j], actions[j], Expired);
    }
  }

  // From a tick on: no select before a ping was written, and no armed tick within a heartbeat.
  ghost predicate HasPinged(cfg: Config, actions: seq<Action>, states: seq<State>, i: nat, j: nat)
    requires i < j < |states| && |states| == |actions| + 1
  {
    var pc := states[j].heartbeat;
    && (pc.Selecting? ==> exists k: nat :: i < k < j && actions[k] == OfHeartbeat(PingWrite(None)))
    && (pc.Selecting? || pc.SendContext? || IsSending(pc) ==>
          states[j].tickAt >= states[i].now + cfg.heartbeat)
    && states[j].now >= states[i].now
  }

  lemma TickStep(cfg: Config, s: State, a: Action)
    requires Enabled(cfg, s, a)
    ensures var s' := Next(cfg, s, a);
            && (s'.heartbeat.Selecting? ==> s.heartbeat.Selecting? || a == OfHeartbeat(PingWrite(None)))
            && (a == OfHeartbeat(PingWrite(None)) ==> s.heartbeat.SendWriting?)
            && (s'.heartbeat.Selecting? || s'.heartbeat.SendContext? || IsSending(s'.heartbeat) ==>
                  if a == OfHeartbeat(Arm) then s'.tickAt == s.now + cfg.heartbeat
                  else s'.tickAt == s.tickAt &&
                       (s.heartbeat.Selecting? || s.heartbeat.SendContext? || IsSending(s.heartbeat)))
  {
    if !a.OfHeartbeat? {
      OthersLeaveHeartbeat(cfg, s, a);
      OthersLeaveTick(cfg, s, a);
    }
  }

  lemma OthersLeaveTick(cfg: Config, s: State, a: Action)
    requires Enabled(cfg, s, a) && !a.OfHeartbeat?
    ensures Next(cfg, s, a).tickAt == s.tickAt
  {
  }

  lemma {:induction false} PingsGoOut(
    cfg: Config, start: int, actions: seq<Action>, states: seq<State>, i: nat, j: nat)
    requires IsRun(cfg, start, actions, states) && i < j < |states| && actions[i] == OfHeartbeat(Wake)
    ensures HasPinged(cfg, actions, states, i, j)
    decreases j
  {
    StepAt(cfg, start, actions, states, j - 1);
    TimeGoesOn(cfg, states[j - 1], actions[j - 1]);
    if i + 1 < j {
      PingsGoOut(cfg, start, actions, states, i, j - 1);
      TickStep(cfg, states[j - 1], actions[j - 1]);
    }
  }

  /** Between two ticks a ping was written, and they are at least a heartbeat apart. */
  lemma TicksPing(cfg: Config, start: int, actions: seq<Action>, states: seq<State>, i: nat, j: nat)
    requires IsRun(cfg, start, actions, states) && i < j < |actions|
    requires actions[i] == OfHeartbeat(Wake) && actions[j] == OfHeartbeat(Wake)
    ensures exists k: nat :: i < k < j && actions[k] == OfHeartbeat(PingWrite(None))
    ensures states[j].now >= states[i].now + cfg.heartbeat
  {
    StepAt(cfg, start, actions, states, j);
    PingsGoOut(cfg, start, actions, states, i, j);
  }
}
