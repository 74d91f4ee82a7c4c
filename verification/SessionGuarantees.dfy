/** The guarantees of the signaling session, over every run of its interleavings. */
module SessionGuarantees {
  import opened Wire
  import opened SessionCore
  import opened SessionMachine
  import opened SessionSafety
  import opened SessionReplies
  import opened SessionProgress

  //
  // The invariant over runs.
  //

  lemma StepAt(cfg: Config, start: int, actions: seq<Action>, states: seq<State>, i: nat)
    requires IsRun(cfg, start, actions, states) && i < |actions|
    ensures IsStep(cfg, states[i], actions[i], states[i + 1])
  {
  }

  ghost predicate Inv(cfg: Config, s: State) {
    && OrderInv(s.core, s.parentCancelled)
    && TerminalOk(s.core, s.parentCancelled)
    && CallsInv(s)
    && WorkersInv(cfg, s)
    && WakesInv(s)
    && AliveInv(s)
    && EventsInv(s)
  }

  lemma NextKeepsInv(cfg: Config, s: State, a: Action)
    requires Inv(cfg, s) && Enabled(cfg, s, a)
    ensures Inv(cfg, Next(cfg, s, a))
  {
    NextKeepsOrder(cfg, s, a);
    NextKeepsCalls(cfg, s, a);
    NextKeepsWorkers(cfg, s, a);
    NextKeepsWakes(cfg, s, a);
    NextKeepsAlive(cfg, s, a);
    NextKeepsEvents(cfg, s, a);
  }

  lemma {:induction false} RunKeepsInv(cfg: Config, start: int, actions: seq<Action>, states: seq<State>, i: nat)
    requires IsRun(cfg, start, actions, states) && i < |states|
    ensures Inv(cfg, states[i])
  {
    if i > 0 {
      RunKeepsInv(cfg, start, actions, states, i - 1);
      StepAt(cfg, start, actions, states, i - 1);
      NextKeepsInv(cfg, states[i - 1], actions[i - 1]);
    }
  }

  lemma RegisteredGrows(cfg: Config, s: State, a: Action)
    requires Enabled(cfg, s, a)
    ensures s.registered <= Next(cfg, s, a).registered
  {
  }

  lemma InitialReplies(cfg: Config, start: int)
    ensures RepliesInv(cfg, Initial(cfg, start))
  {
  }

  lemma {:induction false} RunKeepsReplies(
    cfg: Config, start: int, actions: seq<Action>, states: seq<State>, i: nat)
    requires IsRun(cfg, start, actions, states) && i < |states|
    requires states[i].registered <= TWO_TO_THE_64
    ensures RepliesInv(cfg, states[i])
  {
    if i == 0 {
      InitialReplies(cfg, start);
    } else {
      StepAt(cfg, start, actions, states, i - 1);
      RegisteredGrows(cfg, states[i - 1], actions[i - 1]);
      RunKeepsReplies(cfg, start, actions, states, i - 1);
      RunKeepsInv(cfg, start, actions, states, i - 1);
      NextKeepsReplies(cfg, states[i - 1], actions[i - 1]);
    }
  }

  //
  // The end of a session.
  //

  // What a run keeps from each state to the next.
  ghost predicate IsOrdered(states: seq<State>) {
    forall k: nat | k + 1 < |states| ::
      && KeepsOrder(states[k].core, states[k].parentCancelled, states[k + 1].core, states[k + 1].parentCancelled)
      && states[k].lateWakes <= states[k + 1].lateWakes
  }

  lemma {:induction false} OrderIsLasting(states: seq<State>, i: nat, j: nat)
    requires IsOrdered(states) && i <= j < |states|
    ensures Grows(states[i].core, states[j].core) && states[i].lateWakes <= states[j].lateWakes
  {
    if i < j {
      OrderIsLasting(states, i, j - 1);
      assert j - 1 + 1 == j;
    }
  }

  lemma WakesCount(cfg: Config, s: State, a: Action)
    requires Enabled(cfg, s, a)
    ensures Next(cfg, s, a).lateWakes ==
            s.lateWakes + if a == OfHeartbeat(Wake) && s.core.cancelled then 1 else 0
  {
  }

  lemma RunIsOrdered(cfg: Config, start: int, actions: seq<Action>, states: seq<State>)
    requires IsRun(cfg, start, actions, states)
    ensures IsOrdered(states)
  {
    forall k: nat | k + 1 < |states|
      ensures KeepsOrder(states[k].core, states[k].parentCancelled, states[k + 1].core, states[k + 1].parentCancelled)
      ensures states[k].lateWakes <= states[k + 1].lateWakes
    {
      RunKeepsInv(cfg, start, actions, states, k);
      StepAt(cfg, start, actions, states, k);
      NextKeepsOrder(cfg, states[k], actions[k]);
      WakesCount(cfg, states[k], actions[k]);
    }
  }

  /**
   The terminal cause is assigned once, done is closed at most once however many finishes race, and
   the cause is published before done is closed and done closed before the session cancels its context.
   */
  lemma TerminalIsFinal(cfg: Config, start: int, actions: seq<Action>, states: seq<State>, i: nat, j: nat)
    requires IsRun(cfg, start, actions, states) && i <= j < |states|
    ensures states[i].core.terminal.Some? ==> states[j].core.terminal == states[i].core.terminal
    ensures states[i].core.doneClosed <= states[j].core.doneClosed <= 1
    ensures states[j].core.doneClosed == 1 ==> states[j].core.terminal.Some?
    ensures states[j].core.cancelled && !states[j].parentCancelled ==> states[j].core.doneClosed == 1
  {
    RunKeepsInv(cfg, start, actions, states, i);
    RunKeepsInv(cfg, start, actions, states, j);
    RunIsOrdered(cfg, start, actions, states);
    OrderIsLasting(states, i, j);
  }

  // The step in which the call's caller, or its deadline, cancels it with this cause.
  predicate GivesCause(a: Action, x: nat, e: Error) {
    a.OfCall? && a.call == x && a.move == (if e.CallerCause? then CallerCancels(e.code) else WatchTimeout)
  }

  lemma CauseIsGiven(cfg: Config, s: State, a: Action, x: nat)
    requires Enabled(cfg, s, a) && TerminalOk(s.core, s.parentCancelled)
    ensures var cause := CallOf(Next(cfg, s, a).calls, x).cause;
            cause.Some? && IsCallersCause(cause.value) ==>
              cause == CallOf(s.calls, x).cause || GivesCause(a, x, cause.value)
  {
    if !a.OfCall? {
      OthersLeaveCalls(cfg, s, a);
    }
  }

  lemma {:induction false} CauseWasGiven(
    cfg: Config, start: int, actions: seq<Action>, states: seq<State>, i: nat, x: nat, e: Error)
    requires IsRun(cfg, start, actions, states) && i < |states|
    requires CallOf(states[i].calls, x).cause == Some(e) && IsCallersCause(e)
    ensures exists j: nat :: j < i && GivesCause(actions[j], x, e)
  {
    if i > 0 {
      StepAt(cfg, start, actions, states, i - 1);
      RunKeepsInv(cfg, start, actions, states, i - 1);
      CauseIsGiven(cfg, states[i - 1], actions[i - 1], x);
      if CallOf(states[i - 1].calls, x).cause == Some(e) {
        CauseWasGiven(cfg, start, actions, states, i - 1, x, e);
      }
    }
  }

  // An error a call has met in its own send, until it returns.
  ghost predicate HoldsError(c: Call, e: Error) {
    || ((c.pc.Expiring? || c.pc.InFinish?) && e == Expired)
    || ((c.pc.SendFailed? || c.pc.CauseChecked?) && c.pc.error == e)
    || ((c.pc.Leaving? || c.pc.Returned?) && c.pc.outcome == Failed(e))
  }

  // The step of the call in which its own send meets the error: a failure of marshalling or of the
  // transport, the session found past its age, or a cancelled context.
  predicate MeetsError(cfg: Config, s: State, a: Action, x: nat, e: Error) {
    && a.OfCall? && a.call == x
    && match e
       case Other(code) => a.move == Marshal(Some(code)) || a.move == Write(Some(code))
       case Expired => a.move == LookExpiry && s.now >= s.start + cfg.maxAge
       case Interrupted => a.move == LookContext || a.move == StopWrite
       case _ => false
  }

  lemma EndingStepMeets(cfg: Config, s: State, x: nat, c: Call, m: CallMove, e: Error)
    requires CallEnabled(s.core, x, c, m) && OrderInv(s.core, s.parentCancelled) && IsEnding(m)
    requires HoldsError(CallStep(cfg, s, x, c, m).1, e)
    ensures HoldsError(c, e) || s.core.terminal == Some(e) || c.cause == Some(e)
  {
  }

  lemma OtherStepMeets(cfg: Config, s: State, x: nat, c: Call, m: CallMove, e: Error)
    requires CallEnabled(s.core, x, c, m) && OrderInv(s.core, s.parentCancelled) && !IsEnding(m)
    requires HoldsError(CallStep(cfg, s, x, c, m).1, e)
    ensures HoldsError(c, e) || s.core.terminal == Some(e) || MeetsError(cfg, s, OfCall(x, m), x, e)
  {
  }

  lemma ErrorIsMet(cfg: Config, s: State, a: Action, x: nat, e: Error)
    requires Enabled(cfg, s, a) && OrderInv(s.core, s.parentCancelled)
    requires HoldsError(CallOf(Next(cfg, s, a).calls, x), e)
    ensures || HoldsError(CallOf(s.calls, x), e) || s.core.terminal == Some(e)
            || CallOf(s.calls, x).cause == Some(e) || MeetsError(cfg, s, a, x, e)
  {
    if !a.OfCall? {
      OthersLeaveCalls(cfg, s, a);
    } else if a.call == x {
      if IsEnding(a.move) {
        EndingStepMeets(cfg, s, x, CallOf(s.calls, x), a.move, e);
      } else {
        OtherStepMeets(cfg, s, x, CallOf(s.calls, x), a.move, e);
      }
    }
  }

  lemma CauseStays(cfg: Config, s: State, a: Action, x: nat)
    requires Enabled(cfg, s, a) && CallsInv(s) && CallOf(s.calls, x).cause.Some?
    ensures CallOf(Next(cfg, s, a).calls, x).cause == CallOf(s.calls, x).cause
  {
    if !a.OfCall? {
      OthersLeaveCalls(cfg, s, a);
    }
  }

  lemma {:induction false} ErrorWasMet(
    cfg: Config, start: int, actions: seq<Action>, states: seq<State>, i: nat, x: nat, e: Error)
    requires IsRun(cfg, start, actions, states) && i < |states| && HoldsError(CallOf(states[i].calls, x), e)
    ensures || states[i].core.terminal == Some(e) || CallOf(states[i].calls, x).cause == Some(e)
            || exists j: nat :: j < i && MeetsError(cfg, states[j], actions[j], x, e)
  {
    if i > 0 {
      StepAt(cfg, start, actions, states, i - 1);
      RunKeepsInv(cfg, start, actions, states, i - 1);
      ErrorIsMet(cfg, states[i - 1], actions[i - 1], x, e);
      NextKeepsOrder(cfg, states[i - 1], actions[i - 1]);
      if HoldsError(CallOf(states[i - 1].calls, x), e) {
        ErrorWasMet(cfg, start, actions, states, i - 1, x, e);
      }
      if CallOf(states[i - 1].calls, x).cause == Some(e) {
        CauseStays(cfg, states[i - 1], actions[i - 1], x);
      }
    }
  }

  /**
   Every failed call fails with its own cause, given to it earlier in the run by its caller or its
   deadline, with the session's terminal cause, or with an error that its own send met earlier in the
   run. Unless the parent context was cancelled it never fails with an internal cancellation, and if
   its write was cut off it fails with its own cause or the terminal cause.
   */
  lemma CallsNameTheCause(
    cfg: Config, start: int, actions: seq<Action>, states: seq<State>, i: nat, x: nat, c: Call)
    requires IsRun(cfg, start, actions, states) && i < |states|
    requires c == CallOf(states[i].calls, x) && c.pc.Returned?
    ensures c.pc.outcome.Failed? ==>
              var e := c.pc.outcome.error;
              || (c.cause == Some(e) && exists j: nat :: j < i && GivesCause(actions[j], x, e))
              || states[i].core.terminal == Some(e)
              || exists j: nat :: j < i && MeetsError(cfg, states[j], actions[j], x, e)
    ensures c.pc.outcome.Failed? && !states[i].parentCancelled ==> !IsCancellation(c.pc.outcome.error)
    ensures c.interrupted && !states[i].parentCancelled ==>
              && c.pc.outcome.Failed?
              && var e := c.pc.outcome.error;
                 (c.cause == Some(e) && IsCallersCause(e)) || states[i].core.terminal == Some(e)
  {
    RunKeepsInv(cfg, start, actions, states, i);
    if c.pc.outcome.Failed? {
      var e := c.pc.outcome.error;
      ErrorWasMet(cfg, start, actions, states, i, x, e);
      if c.cause == Some(e) && IsCallersCause(e) {
        CauseWasGiven(cfg, start, actions, states, i, x, e);
      }
    }
  }

  ghost predicate IsReached(cfg: Config, start: int, s: State) {
    exists actions: seq<Action>, states: seq<State> ::
      IsRun(cfg, start, actions, states) && states[|actions|] == s
  }

  lemma RunGrows(cfg: Config, start: int, actions: seq<Action>, states: seq<State>, a: Action)
    requires IsRun(cfg, start, actions, states) && Enabled(cfg, states[|actions|], a)
    ensures IsRun(cfg, start, actions + [a], states + [Next(cfg, states[|actions|], a)])
  {
    var actions', states' := actions + [a], states + [Next(cfg, states[|actions|], a)];
    forall i: nat | i < |actions'|
      ensures IsStep(cfg, states'[i], actions'[i], states'[i + 1])
    {
      if i < |actions| {
        assert IsStep(cfg, states[i], actions[i], states[i + 1]);
      }
    }
  }

  lemma RunPrefix(cfg: Config, start: int, actions: seq<Action>, states: seq<State>, n: nat)
    requires IsRun(cfg, start, actions, states) && n <= |actions|
    ensures IsRun(cfg, start, actions[..n], states[..n + 1])
  {
    forall i: nat | i < n
      ensures IsStep(cfg, states[..n + 1][i], actions[..n][i], states[..n + 1][i + 1])
    {
      StepAt(cfg, start, actions, states, i);
    }
  }

  lemma NextIsReached(cfg: Config, start: int, s: State, a: Action)
    requires IsReached(cfg, start, s) && Enabled(cfg, s, a)
    ensures IsReached(cfg, start, Next(cfg, s, a))
  {
    var actions, states :| IsRun(cfg, start, actions, states) && states[|actions|] == s;
    RunGrows(cfg, start, actions, states, a);
    assert (states + [Next(cfg, s, a)])[|actions + [a]|] == Next(cfg, s, a);
  }

  // The state in which call 0 alone has moved.
  function Alone(cfg: Config, start: int, core: Core, parent: bool, c: Call): State {
    Initial(cfg, start).(core := core, calls := map[0 := c], registered := c.ordinal, parentCancelled := parent)
  }

  lemma MoveIsReached(cfg: Config, start: int, core: Core, parent: bool, c: Call, m: CallMove)
    requires IsReached(cfg, start, Alone(cfg, start, core, parent, c)) && !m.Enroll? && !m.Begin?
    requires CallEnabled(core, 0, c, m)
    ensures var step := CallStep(cfg, Alone(cfg, start, core, parent, c), 0, c, m);
            IsReached(cfg, start, Alone(cfg, start, step.0, parent, step.1))
  {
    var s := Alone(cfg, start, core, parent, c);
    NextIsReached(cfg, start, s, OfCall(0, m));
    var step := CallStep(cfg, s, 0, c, m);
    assert Next(cfg, s, OfCall(0, m)) == Alone(cfg, start, step.0, parent, step.1);
  }

  function Enrolled(cfg: Config, start: int): Core {
    Register(cfg, Initial(cfg, start).core, 0)
  }

  lemma RegisteringIsReached(cfg: Config, start: int)
    ensures IsReached(cfg, start,
      Alone(cfg, start, Enrolled(cfg, start), false, Call(Marshalling, 1, IdOf(cfg, 1), None, true, false)))
  {
    var s0 := Initial(cfg, start);
    var none: seq<Action> := [];
    assert IsRun(cfg, start, none, [s0]) && [s0][|none|] == s0;
    NextIsReached(cfg, start, s0, OfCall(0, Begin));
    var s1 := Next(cfg, s0, OfCall(0, Begin));
    NextIsReached(cfg, start, s1, OfCall(0, Enroll));
    assert Next(cfg, s1, OfCall(0, Enroll)) ==
           Alone(cfg, start, Enrolled(cfg, start), false, Call(Marshalling, 1, IdOf(cfg, 1), None, true, false));
  }

  lemma WritingIsReached(cfg: Config, start: int)
    requires cfg.maxAge > 0
    ensures IsReached(cfg, start,
      Alone(cfg, start, Enrolled(cfg, start), false, Call(Writing, 1, IdOf(cfg, 1), None, true, false)))
  {
    var core, c := Enrolled(cfg, start), Call(Marshalling, 1, IdOf(cfg, 1), None, true, false);
    RegisteringIsReached(cfg, start);
    MoveIsReached(cfg, start, core, false, c, Marshal(None));
    MoveIsReached(cfg, start, core, false, c.(pc := CheckingContext), LookContext);
    MoveIsReached(cfg, start, core, false, c.(pc := CheckingClosed), LookClosed);
    MoveIsReached(cfg, start, core, false, c.(pc := CheckingExpiry), LookExpiry);
  }

  /** The assumption is needed: when the parent is cancelled mid-write, the call returns that cancellation. */
  lemma ParentCancelShowsThrough(cfg: Config, start: int)
    requires cfg.maxAge > 0
    ensures exists s: State ::
              && IsReached(cfg, start, s)
              && CallOf(s.calls, 0) == Call(Returned(Failed(Interrupted)), 1, IdOf(cfg, 1), None, true, true)
  {
    var core, c := Enrolled(cfg, start).(cancelled := true), Call(Writing, 1, IdOf(cfg, 1), None, true, false);
    WritingIsReached(cfg, start);
    NextIsReached(cfg, start, Alone(cfg, start, Enrolled(cfg, start), false, c), OfEnvironment(ParentCancel));
    assert IsReached(cfg, start, Alone(cfg, start, core, true, c));
    MoveIsReached(cfg, start, core, true, c, StopWrite);
    c := c.(interrupted := true);
    MoveIsReached(cfg, start, core, true, c.(pc := SendFailed(Interrupted)), LookCause);
    MoveIsReached(cfg, start, core, true, c.(pc := CauseChecked(Interrupted)), LookDone);
    MoveIsReached(cfg, start, core, true, c.(pc := Leaving(Failed(Interrupted))), Leave);
    var s := Alone(cfg, start, Forget(core, IdOf(cfg, 1)), true, c.(pc := Returned(Failed(Interrupted))));
    assert IsReached(cfg, start, s);
    assert CallOf(s.calls, 0) == Call(Returned(Failed(Interrupted)), 1, IdOf(cfg, 1), None, true, true);
  }

  //
  // Replies.
  //

  /** Two registrations get the same ID exactly when the 64-bit sequence has come round between them. */
  lemma IdsRepeatExactly(cfg: Config, m: nat, n: nat)
    ensures IdOf(cfg, m) == IdOf(cfg, n) <==> m % TWO_TO_THE_64 == n % TWO_TO_THE_64
  {
    RequestIdsDiffer(cfg.control, m % TWO_TO_THE_64, n % TWO_TO_THE_64);
  }

  /** The IDs that registering hands out are never the same for two calls of a run, past or present. */
  lemma IdsNeverRepeat(
    cfg: Config, start: int, actions: seq<Action>, states: seq<State>, i: nat, x: nat, y: nat)
    requires IsRun(cfg, start, actions, states) && i < |states| && states[i].registered <= TWO_TO_THE_64
    requires CallOf(states[i].calls, x).ordinal > 0 && CallOf(states[i].calls, y).ordinal > 0
    ensures CallOf(states[i].calls, x).id == CallOf(states[i].calls, y).id <==> x == y
  {
    RunKeepsReplies(cfg, start, actions, states, i);
    if x != y {
      CallIdsDiffer(cfg, states[i].calls, states[i].registered, x, y);
    }
  }

  /**
   Each reply channel gets at most one value. So the channel of a pending call is empty, and the send
   made while holding the mutex cannot block; nor can finish drop the value it owes a call.
   */
  lemma SendsNeverBlock(cfg: Config, start: int, actions: seq<Action>, states: seq<State>, i: nat, x: nat)
    requires IsRun(cfg, start, actions, states) && i < |states| && states[i].registered <= TWO_TO_THE_64
    ensures |SentTo(states[i].core, x)| <= 1 && 0 <= Waiting(states[i].core, x) <= 1
    ensures x in states[i].core.pending.Values || x in Left(states[i].core) ==> Waiting(states[i].core, x) == 0
  {
    RunKeepsReplies(cfg, start, actions, states, i);
    var core := states[i].core;
    assert ChannelOk(cfg, core, x, CallOf(states[i].calls, x));
    if x in core.pending.Values {
      var id :| id in core.pending && core.pending[id] == x;
      assert EntryOk(cfg, id, CallOf(states[i].calls, core.pending[id]));
    }
  }

  // What a decoded reply says: whose it is, and a result's control session or an error's code.
  predicate Carries(command: Command, r: Reply) {
    match r
    case Result(id, session) => command.id == id && command.error.None? && command.resultSession == Some(session)
    case Fault(id, code) => command.id == id && command.error == Some(code)
    case Ended(_) => false
  }

  // The step in which the reader handles the message that answers the call, then pending, with r.
  ghost predicate IsAnswer(cfg: Config, s: State, a: Action, x: nat, r: Reply) {
    && a.OfEnvironment? && a.env.Incoming?
    && var m := a.env.message;
       && IsAddressed(cfg, m) && !s.core.closed && m.kind.Rpc? && CommandOf(m.rpc).Some?
       && var command := CommandOf(m.rpc).value;
          IsWellFormed(command) && command.request == "" && Carries(command, r) && IsPending(s.core, command.id, x)
  }

  lemma ReplyIsSent(cfg: Config, core: Core, command: Command, x: nat, r: Reply)
    requires r in SentTo(HandleReply(cfg, core, command), x)
    ensures r in SentTo(core, x) || (Carries(command, r) && IsPending(core, command.id, x))
  {
  }

  lemma HandleSends(cfg: Config, s: State, m: Message, x: nat, r: Reply)
    requires r in SentTo(Handle(cfg, s.core, m, s.now).core, x)
    ensures r in SentTo(s.core, x) || IsAnswer(cfg, s, OfEnvironment(Incoming(m)), x, r)
  {
    if r !in SentTo(s.core, x) && CommandOf(m.rpc).Some? {
      if r in SentTo(HandleReply(cfg, s.core, CommandOf(m.rpc).value), x) {
        ReplyIsSent(cfg, s.core, CommandOf(m.rpc).value, x, r);
      }
    }
  }

  lemma FinishSends(core: Core, m: FinishMove, x: nat, r: Reply)
    requires FinishEnabled(core, m) && r in SentTo(FinishStep(core, m), x)
    ensures r in SentTo(core, x) || r.Ended?
  {
  }

  lemma CallsSendNothing(cfg: Config, s: State, x: nat, c: Call, m: CallMove)
    requires CallEnabled(s.core, x, c, m)
    ensures CallStep(cfg, s, x, c, m).0.sent == s.core.sent
  {
  }

  lemma NextSends(cfg: Config, s: State, a: Action, x: nat, r: Reply)
    requires Enabled(cfg, s, a) && r in SentTo(Next(cfg, s, a).core, x)
    ensures r in SentTo(s.core, x) || r.Ended? || IsAnswer(cfg, s, a, x, r)
  {
    match a {
      case OfCall(y, m) => CallsSendNothing(cfg, s, y, CallOf(s.calls, y), m);
      case OfFinish(m) => FinishSends(s.core, m, x, r);
      case OfEnvironment(m) =>
        if m.Incoming? {
          HandleSends(cfg, s, m.message, x, r);
        }
      case _ =>
    }
  }

  lemma {:induction false} SentWasReceived(
    cfg: Config, start: int, actions: seq<Action>, states: seq<State>, i: nat, x: nat, r: Reply)
    requires IsRun(cfg, start, actions, states) && i < |states| && r in SentTo(states[i].core, x) && !r.Ended?
    ensures exists j: nat :: j < i && IsAnswer(cfg, states[j], actions[j], x, r)
  {
    if i > 0 {
      StepAt(cfg, start, actions, states, i - 1);
      NextSends(cfg, states[i - 1], actions[i - 1], x, r);
      if r in SentTo(states[i - 1].core, x) {
        SentWasReceived(cfg, start, actions, states, i - 1, x, r);
      }
    }
  }

  /**
   A call that returns a reply returns the one value sent to it. That is the terminal cause, or what a
   message carried that was handled earlier in the run, while the call was pending: its own ID, and its
   own control session or the peer's error code.
   */
  lemma RepliesFitTheirCalls(
    cfg: Config, start: int, actions: seq<Action>, states: seq<State>, i: nat, x: nat, c: Call)
    requires IsRun(cfg, start, actions, states) && i < |states| && states[i].registered <= TWO_TO_THE_64
    requires c == CallOf(states[i].calls, x) && c.pc.Returned? && c.pc.outcome.Replied?
    ensures SentTo(states[i].core, x) == [c.pc.outcome.reply]
    ensures match c.pc.outcome.reply
            case Result(id, session) => id == c.id && session == cfg.control
            case Fault(id, _) => id == c.id
            case Ended(cause) => states[i].core.terminal == Some(cause)
    ensures !c.pc.outcome.reply.Ended? ==>
              exists j: nat :: j < i && IsAnswer(cfg, states[j], actions[j], x, c.pc.outcome.reply)
  {
    RunKeepsReplies(cfg, start, actions, states, i);
    assert ChannelOk(cfg, states[i].core, x, CallOf(states[i].calls, x));
    if !c.pc.outcome.reply.Ended? {
      SentWasReceived(cfg, start, actions, states, i, x, c.pc.outcome.reply);
    }
  }

  ghost predicate Awaits(s: State, x: nat) {
    var c := CallOf(s.calls, x);
    c.ordinal > 0 && !c.pc.Returned? && SentTo(s.core, x) == []
  }

  /** While the session is open, pending holds exactly the calls registered, unanswered and not returned. */
  lemma PendingIsExact(
    cfg: Config, start: int, actions: seq<Action>, states: seq<State>, i: nat, id: string, x: nat)
    requires IsRun(cfg, start, actions, states) && i < |states| && states[i].registered <= TWO_TO_THE_64
    ensures !states[i].core.closed ==>
              (IsPending(states[i].core, id, x) <==>
               Awaits(states[i], x) && id == CallOf(states[i].calls, x).id)
    ensures states[i].core.closed ==> states[i].core.pending == map[]
  {
    RunKeepsInv(cfg, start, actions, states, i);
    RunKeepsReplies(cfg, start, actions, states, i);
    var core := states[i].core;
    assert ChannelOk(cfg, core, x, CallOf(states[i].calls, x));
    if IsPending(core, id, x) {
      assert EntryOk(cfg, id, CallOf(states[i].calls, core.pending[id]));
    }
  }

  /** With no call in flight nothing is pending. */
  lemma IdleMeansNothingPending(cfg: Config, start: int, actions: seq<Action>, states: seq<State>, i: nat)
    requires IsRun(cfg, start, actions, states) && i < |states| && states[i].registered <= TWO_TO_THE_64
    requires forall x: nat :: CallOf(states[i].calls, x).pc.Absent? || CallOf(states[i].calls, x).pc.Returned?
    ensures states[i].core.pending == map[]
  {
    RunKeepsReplies(cfg, start, actions, states, i);
  }

  /** Once done is closed, every call still inside has been sent its one value: no caller is left behind. */
  lemma FinishAnswersEveryone(
    cfg: Config, start: int, actions: seq<Action>, states: seq<State>, i: nat, x: nat)
    requires IsRun(cfg, start, actions, states) && i < |states| && states[i].registered <= TWO_TO_THE_64
    requires states[i].core.doneClosed > 0 && CallOf(states[i].calls, x).ordinal > 0
    ensures CallOf(states[i].calls, x).pc.Returned? || |SentTo(states[i].core, x)| == 1
  {
    RunKeepsInv(cfg, start, actions, states, i);
    RunKeepsReplies(cfg, start, actions, states, i);
    assert ChannelOk(cfg, states[i].core, x, CallOf(states[i].calls, x));
  }

  //
  // Messages and events.
  //

  predicate IsUnaddressed(cfg: Config, a: Action) {
    a.OfEnvironment? && a.env.Incoming? && !IsAddressed(cfg, a.env.message)
  }

  // The run without the messages for another dialog, device or signal session.
  function Addressed(cfg: Config, actions: seq<Action>): seq<Action> {
    if actions == [] then [] else
    var last := actions[|actions| - 1];
    Addressed(cfg, actions[..|actions| - 1]) + if IsUnaddressed(cfg, last) then [] else [last]
  }

  lemma UnaddressedChangesNothing(cfg: Config, s: State, a: Action)
    requires Enabled(cfg, s, a) && IsUnaddressed(cfg, a)
    ensures Next(cfg, s, a) == s
  {
  }

  /** Such messages are invisible: without them the same run is possible and ends in the same state. */
  lemma {:induction false} UnaddressedIsInvisible(
    cfg: Config, start: int, actions: seq<Action>, states: seq<State>)
    requires IsRun(cfg, start, actions, states)
    ensures exists states' ::
              && IsRun(cfg, start, Addressed(cfg, actions), states')
              && states'[|states'| - 1] == states[|states| - 1]
    decreases |actions|
  {
    if actions == [] {
      assert states[|states| - 1] == states[0];
    } else {
      var n := |actions| - 1;
      RunPrefix(cfg, start, actions, states, n);
      UnaddressedIsInvisible(cfg, start, actions[..n], states[..n + 1]);
      var before :| IsRun(cfg, start, Addressed(cfg, actions[..n]), before) && before[|before| - 1] == states[n];
      StepAt(cfg, start, actions, states, n);
      if IsUnaddressed(cfg, actions[n]) {
        UnaddressedChangesNothing(cfg, states[n], actions[n]);
        assert Addressed(cfg, actions) == Addressed(cfg, actions[..n]);
      } else {
        RunGrows(cfg, start, Addressed(cfg, actions[..n]), before, actions[n]);
      }
    }
  }

  /** Events come out in the order they went in, none lost and none made up, at most 32 of them waiting. */
  lemma EventsAreConserved(cfg: Config, start: int, actions: seq<Action>, states: seq<State>, i: nat)
    requires IsRun(cfg, start, actions, states) && i < |states|
    ensures states[i].accepted == states[i].received + states[i].core.events
    ensures |states[i].core.events| <= EVENT_QUEUE_CAPACITY
  {
    RunKeepsInv(cfg, start, actions, states, i);
  }

  /**
   A message for the queue, event or request, is accepted exactly when there is room. A full queue answers
   with backpressure, and nothing is lost.
   */
  lemma FullQueueRejects(cfg: Config, start: int, actions: seq<Action>, states: seq<State>, i: nat, m: Message)
    requires IsRun(cfg, start, actions, states) && i < |actions|
    requires actions[i] == OfEnvironment(Incoming(m)) && IsForQueue(cfg, states[i].core, m)
    ensures var full := |states[i].core.events| == EVENT_QUEUE_CAPACITY;
            && Handle(cfg, states[i].core, m, states[i].now).error == (if full then Some(Backpressure) else None)
            && states[i + 1].accepted == states[i].accepted + (if full then [] else [m])
            && states[i + 1].core == states[i].core.(events := states[i].core.events + (if full then [] else [m]))
            && states[i + 1].received == states[i].received
  {
    StepAt(cfg, start, actions, states, i);
    RunKeepsInv(cfg, start, actions, states, i);
  }

  //
  // The workers.
  //

  ghost predicate IsCheck(actions: seq<Action>, states: seq<State>, j: nat, age: int) {
    j < |actions| < |states| && actions[j] == OfHeartbeat(Check) && states[j].now - states[j].core.lastPong == age
  }

  lemma AgeIsKept(cfg: Config, s: State, a: Action)
    requires Enabled(cfg, s, a)
    ensures Next(cfg, s, a).checkedAge ==
            if a == OfHeartbeat(Check) then s.now - s.core.lastPong else s.checkedAge
  {
  }

  lemma {:induction false} AgeWasSeen(cfg: Config, start: int, actions: seq<Action>, states: seq<State>, i: nat)
    requires IsRun(cfg, start, actions, states) && i < |states|
    ensures states[i].checkedAge != 0 ==> exists j: nat :: j < i && IsCheck(actions, states, j, states[i].checkedAge)
  {
    if i > 0 {
      AgeWasSeen(cfg, start, actions, states, i - 1);
      StepAt(cfg, start, actions, states, i - 1);
      AgeIsKept(cfg, states[i - 1], actions[i - 1]);
      assert actions[i - 1] == OfHeartbeat(Check) ==> IsCheck(actions, states, i - 1, states[i].checkedAge);
    }
  }

  // The step in which a pong of this session is handled while it is open.
  predicate IsPong(cfg: Config, s: State, a: Action) {
    && a.OfEnvironment? && a.env.Incoming?
    && IsAddressed(cfg, a.env.message) && a.env.message.kind.Pong? && !s.core.closed
  }

  lemma HandlePong(cfg: Config, s: State, m: Message)
    ensures Handle(cfg, s.core, m, s.now).core.lastPong
            == if IsPong(cfg, s, OfEnvironment(Incoming(m))) then s.now else s.core.lastPong
  {
  }

  lemma PongStep(cfg: Config, s: State, a: Action)
    requires Enabled(cfg, s, a)
    ensures Next(cfg, s, a).core.lastPong == if IsPong(cfg, s, a) then s.now else s.core.lastPong
  {
    match a {
      case OfCall(x, m) => CallLeavesPong(cfg, s, x, CallOf(s.calls, x), m);
      case OfFinish(m) => FinishLeavesPong(s.core, m);
      case OfEnvironment(m) =>
        if m.Incoming? {
          HandlePong(cfg, s, m.message);
        }
      case _ =>
    }
  }

  lemma CallLeavesPong(cfg: Config, s: State, x: nat, c: Call, m: CallMove)
    requires CallEnabled(s.core, x, c, m)
    ensures CallStep(cfg, s, x, c, m).0.lastPong == s.core.lastPong
  {
  }

  lemma TimeGoesOn(cfg: Config, s: State, a: Action)
    requires Enabled(cfg, s, a)
    ensures s.now <= Next(cfg, s, a).now && (IsPong(cfg, s, a) ==> Next(cfg, s, a).now == s.now)
  {
  }

  // The moment of the latest pong handled in the first i steps, or of the start.
  ghost predicate IsLatestPong(
    cfg: Config, start: int, actions: seq<Action>, states: seq<State>, i: nat, moment: int)
    requires i <= |actions| < |states|
  {
    && (moment == start || exists j: nat :: j < i && IsPong(cfg, states[j], actions[j]) && states[j].now == moment)
    && (forall j: nat :: j < i && IsPong(cfg, states[j], actions[j]) ==> states[j].now <= moment)
    && start <= moment
  }

  lemma LatestPongStays(
    cfg: Config, start: int, actions: seq<Action>, states: seq<State>, i: nat, moment: int)
    requires i < |actions| < |states| && IsLatestPong(cfg, start, actions, states, i, moment)
    requires !IsPong(cfg, states[i], actions[i])
    ensures IsLatestPong(cfg, start, actions, states, i + 1, moment)
  {
    if moment != start {
      var j: nat :| j < i && IsPong(cfg, states[j], actions[j]) && states[j].now == moment;
      assert j < i + 1 && states[j].now == moment;
    }
  }

  lemma NewPongIsLatest(
    cfg: Config, start: int, actions: seq<Action>, states: seq<State>, i: nat, moment: int)
    requires i < |actions| < |states| && IsLatestPong(cfg, start, actions, states, i, moment)
    requires IsPong(cfg, states[i], actions[i]) && moment <= states[i].now
    ensures IsLatestPong(cfg, start, actions, states, i + 1, states[i].now)
  {
  }

  lemma {:induction false} LastPongIsLatest(
    cfg: Config, start: int, actions: seq<Action>, states: seq<State>, i: nat)
    requires IsRun(cfg, start, actions, states) && i < |states|
    ensures IsLatestPong(cfg, start, actions, states, i, states[i].core.lastPong)
    ensures states[i].core.lastPong <= states[i].now
  {
    if i > 0 {
      LastPongIsLatest(cfg, start, actions, states, i - 1);
      StepAt(cfg, start, actions, states, i - 1);
      PongStep(cfg, states[i - 1], actions[i - 1]);
      TimeGoesOn(cfg, states[i - 1], actions[i - 1]);
      if IsPong(cfg, states[i - 1], actions[i - 1]) {
        NewPongIsLatest(cfg, start, actions, states, i - 1, states[i - 1].core.lastPong);
      } else {
        LatestPongStays(cfg, start, actions, states, i - 1, states[i - 1].core.lastPong);
      }
    }
  }

  /**
   A session that ends in ErrHeartbeat had a check before which no pong was handled for three heartbeats,
   nor did it start within them.
   */
  lemma LostMeansSilent(cfg: Config, start: int, actions: seq<Action>, states: seq<State>, i: nat)
    requires IsRun(cfg, start, actions, states) && i < |states| && cfg.heartbeat > 0
    requires states[i].core.terminal == Some(HeartbeatLost)
    ensures exists j: nat ::
              && j < i && actions[j] == OfHeartbeat(Check)
              && start + MISSED_HEARTBEATS * cfg.heartbeat <= states[j].now
              && forall k: nat :: k < j && IsPong(cfg, states[k], actions[k]) ==>
                   states[k].now + MISSED_HEARTBEATS * cfg.heartbeat <= states[j].now
  {
    RunKeepsInv(cfg, start, actions, states, i);
    AgeWasSeen(cfg, start, actions, states, i);
    var j: nat :| j < i && IsCheck(actions, states, j, states[i].checkedAge);
    LastPongIsLatest(cfg, start, actions, states, j);
  }

  /** After the cancel the heartbeat worker starts at most one more iteration. */
  lemma OneLateTick(cfg: Config, start: int, actions: seq<Action>, states: seq<State>, i: nat, j: nat)
    requires IsRun(cfg, start, actions, states) && i < j < |actions|
    requires states[i].core.cancelled && actions[i] == OfHeartbeat(Wake)
    ensures actions[j] != OfHeartbeat(Wake)
  {
    StepAt(cfg, start, actions, states, i);
    WakesCount(cfg, states[i], actions[i]);
    StepAt(cfg, start, actions, states, j);
    WakesCount(cfg, states[j], actions[j]);
    RunIsOrdered(cfg, start, actions, states);
    OrderIsLasting(states, i, j);
    OrderIsLasting(states, i + 1, j);
    RunKeepsInv(cfg, start, actions, states, j + 1);
  }

  // The steps of the winning finish and of the workers.
  function EndSteps(actions: seq<Action>): nat {
    if actions == [] then 0
    else EndSteps(actions[..|actions| - 1]) + if IsEnd(actions[|actions| - 1]) then 1 else 0
  }

  ghost predicate IsWindingDown(actions: seq<Action>, states: seq<State>) {
    forall k: nat | k < |actions| && k + 1 < |states| ::
      states[k].core.closed ==>
        && states[k + 1].core.closed
        && EndRank(states[k + 1]) + (if IsEnd(actions[k]) then 1 else 0) <= EndRank(states[k])
  }

  lemma {:induction false} EndIsBounded(actions: seq<Action>, states: seq<State>, i: nat, j: nat)
    requires IsWindingDown(actions, states) && i <= j < |states| && j <= |actions| && states[i].core.closed
    ensures states[j].core.closed
    ensures EndSteps(actions[i..j]) + EndRank(states[j]) <= EndRank(states[i])
  {
    if i < j {
      EndIsBounded(actions, states, i, j - 1);
      assert actions[i..j][..j - i - 1] == actions[i..j - 1];
      assert j - 1 + 1 == j;
    }
  }

  lemma RunIsWindingDown(cfg: Config, start: int, actions: seq<Action>, states: seq<State>)
    requires IsRun(cfg, start, actions, states)
    ensures IsWindingDown(actions, states)
  {
    forall k: nat | k < |actions| && k + 1 < |states| && states[k].core.closed
      ensures states[k + 1].core.closed
      ensures EndRank(states[k + 1]) + (if IsEnd(actions[k]) then 1 else 0) <= EndRank(states[k])
    {
      RunKeepsInv(cfg, start, actions, states, k);
      StepAt(cfg, start, actions, states, k);
      NextKeepsOrder(cfg, states[k], actions[k]);
      EndDescends(cfg, states[k], actions[k]);
    }
  }

  /**
   Close returns. From the moment the session is closed the winning finish and the two workers take, in
   all, at most 14 steps more than there are calls left to answer, whatever else runs; and until done
   is closed, the context cancelled and both workers gone, one of them can go on, even out of a
   blocked write.
   */
  lemma CloseReturns(cfg: Config, start: int, actions: seq<Action>, states: seq<State>, i: nat, j: nat)
    requires IsRun(cfg, start, actions, states) && i <= j < |states| && states[i].core.closed
    ensures EndSteps(actions[i..j]) <= |Left(states[i].core)| + 14
    ensures || (states[j].core.finish.Over? && states[j].heartbeat.Gone? && states[j].expiry.Gone?)
            || exists a: Action :: IsEnd(a) && Enabled(cfg, states[j], a)
  {
    RunKeepsInv(cfg, start, actions, states, j);
    RunIsWindingDown(cfg, start, actions, states);
    EndIsBounded(actions, states, i, j);
    SomeEnd(cfg, states[j]);
  }

  //
  // Time.
  //

  ghost predicate IsPromptRun(cfg: Config, start: int, actions: seq<Action>, states: seq<State>) {
    && IsRun(cfg, start, actions, states)
    && forall i | 0 <= i < |actions| :: IsPrompt(cfg, states[i], actions[i])
  }

  lemma StartIsKept(cfg: Config, s: State, a: Action)
    requires Enabled(cfg, s, a)
    ensures Next(cfg, s, a).start == s.start
  {
  }

  lemma {:induction false} RunKeepsTime(
    cfg: Config, start: int, actions: seq<Action>, states: seq<State>, i: nat)
    requires IsPromptRun(cfg, start, actions, states) && i < |states| && cfg.heartbeat > 0
    ensures TimeInv(cfg, states[i]) && states[i].start == start
  {
    if i > 0 {
      RunKeepsTime(cfg, start, actions, states, i - 1);
      RunKeepsInv(cfg, start, actions, states, i - 1);
      StepAt(cfg, start, actions, states, i - 1);
      NextKeepsTime(cfg, states[i - 1], actions[i - 1]);
      StartIsKept(cfg, states[i - 1], actions[i - 1]);
    }
  }

  /**
   A prompt session that is open is at most MaxAge old, and either it or a pong it handled is less than
   four heartbeats old.
   */
  lemma OpenMeansFresh(cfg: Config, start: int, actions: seq<Action>, states: seq<State>, i: nat)
    requires IsPromptRun(cfg, start, actions, states) && i < |states| && cfg.heartbeat > 0
    requires !states[i].core.closed
    ensures 0 <= states[i].now - start <= cfg.maxAge
    ensures || states[i].now - start < 4 * cfg.heartbeat
            || exists j: nat ::
                 j < i && IsPong(cfg, states[j], actions[j]) && states[i].now - states[j].now < 4 * cfg.heartbeat
  {
    RunKeepsTime(cfg, start, actions, states, i);
    LastPongIsLatest(cfg, start, actions, states, i);
  }

  /** And time never waits in vain: in any run, if none may pass, a worker has a step to take. */
  lemma TimeNeverStops(cfg: Config, start: int, actions: seq<Action>, states: seq<State>, i: nat)
    requires IsRun(cfg, start, actions, states) && i < |states|
    ensures IsPrompt(cfg, states[i], OfEnvironment(Advance(1))) ||
            exists a: Action :: IsWork(a) && Enabled(cfg, states[i], a)
  {
    RunKeepsInv(cfg, start, actions, states, i);
    if !IsPrompt(cfg, states[i], OfEnvironment(Advance(1))) {
      TimeWaitsForWork(cfg, states[i]);
    }
  }
}
