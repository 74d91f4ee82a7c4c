/**
 Request IDs, reply channels and the pending map over every interleaving of the signaling session, as
 long as the 64-bit sequence has not come round to an ID it already gave out.
 */
module SessionReplies {
  import opened Wire
  import opened SessionCore
  import opened SessionMachine
  import opened SessionSafety

  //
  // What is kept.
  //

  // Calls the winning finish still has to answer.
  function Left(core: Core): set<nat> {
    if core.finish.Delivering? then core.finish.left else {}
  }

  // A value that the call with this ID may receive.
  ghost predicate Fits(cfg: Config, core: Core, id: string, reply: Reply) {
    match reply
    case Result(answered, session) => answered == id && session == cfg.control
    case Fault(answered, _) => answered == id
    case Ended(cause) => core.terminal == Some(cause)
  }

  ghost predicate IsPending(core: Core, id: string, x: nat) {
    id in core.pending && core.pending[id] == x
  }

  // Who will answer the call: the reader while the session is open, the winning finish afterwards.
  ghost predicate IsOwed(core: Core, id: string, x: nat) {
    if core.closed then x in Left(core) else IsPending(core, id, x)
  }

  ghost predicate ChannelOk(cfg: Config, core: Core, x: nat, c: Call) {
    && |SentTo(core, x)| <= 1
    && (x in core.taken ==> SentTo(core, x) != [])
    && (SentTo(core, x) != [] ==>
          c.ordinal > 0 && Fits(cfg, core, c.id, SentTo(core, x)[0]) && c.id !in core.pending)
    && (x in Left(core) ==> c.ordinal > 0 && SentTo(core, x) == [])
    && (c.ordinal > 0 && !c.pc.Returned? && SentTo(core, x) == [] ==> IsOwed(core, c.id, x))
  }

  // A call that took a reply took the one value sent to it.
  ghost predicate AnswersOk(core: Core, x: nat, c: Call) {
    (c.pc.Leaving? || c.pc.Returned?) && c.pc.outcome.Replied? ==> SentTo(core, x) == [c.pc.outcome.reply]
  }

  ghost predicate EntryOk(cfg: Config, id: string, c: Call) {
    c.ordinal > 0 && id == c.id && !c.pc.Returned?
  }

  ghost predicate OrdinalOk(cfg: Config, c: Call, registered: nat) {
    && c.ordinal <= registered
    && (c.pc.Absent? || c.pc.Registering? ==> c.ordinal == 0)
    && (c.ordinal == 0 ==> c.pc.Absent? || c.pc.Registering? || c.pc.Returned?)
    && c.id == (if c.ordinal > 0 then IdOf(cfg, c.ordinal) else "")
  }

  ghost predicate ChannelsInv(cfg: Config, core: Core, calls: map<nat, Call>) {
    forall x: nat :: ChannelOk(cfg, core, x, CallOf(calls, x)) && AnswersOk(core, x, CallOf(calls, x))
  }

  ghost predicate PendingInv(cfg: Config, core: Core, calls: map<nat, Call>) {
    forall id | id in core.pending :: EntryOk(cfg, id, CallOf(calls, core.pending[id]))
  }

  ghost predicate OrdinalsInv(cfg: Config, calls: map<nat, Call>, registered: nat) {
    && (forall x: nat :: OrdinalOk(cfg, CallOf(calls, x), registered))
    && (forall x: nat, y: nat ::
          CallOf(calls, x).ordinal == CallOf(calls, y).ordinal && CallOf(calls, x).ordinal > 0 ==> x == y)
  }

  ghost predicate RepliesInv(cfg: Config, s: State) {
    && s.core.sequence == s.registered % TWO_TO_THE_64
    && OrdinalsInv(cfg, s.calls, s.registered)
    && PendingInv(cfg, s.core, s.calls)
    && ChannelsInv(cfg, s.core, s.calls)
  }

  //
  // IDs.
  //

  lemma SmallModulus(m: nat, n: nat)
    requires 0 < m <= TWO_TO_THE_64 && 0 < n <= TWO_TO_THE_64
    ensures m % TWO_TO_THE_64 == n % TWO_TO_THE_64 <==> m == n
  {
  }

  lemma IdsDiffer(cfg: Config, m: nat, n: nat)
    requires 0 < m <= TWO_TO_THE_64 && 0 < n <= TWO_TO_THE_64
    ensures IdOf(cfg, m) == IdOf(cfg, n) <==> m == n
  {
    RequestIdsDiffer(cfg.control, m % TWO_TO_THE_64, n % TWO_TO_THE_64);
    SmallModulus(m, n);
  }

  lemma NextId(cfg: Config, registered: nat)
    ensures RequestId(cfg.control, NextSequence(registered % TWO_TO_THE_64)) == IdOf(cfg, registered + 1)
    ensures NextSequence(registered % TWO_TO_THE_64) == (registered + 1) % TWO_TO_THE_64
  {
  }

  // The IDs of two calls, while the sequence has not come round.
  lemma CallIdsDiffer(cfg: Config, calls: map<nat, Call>, registered: nat, x: nat, y: nat)
    requires OrdinalsInv(cfg, calls, registered) && registered <= TWO_TO_THE_64
    requires x != y && CallOf(calls, x).ordinal > 0 && CallOf(calls, y).ordinal > 0
    ensures CallOf(calls, x).id != CallOf(calls, y).id
  {
    assert OrdinalOk(cfg, CallOf(calls, x), registered) && OrdinalOk(cfg, CallOf(calls, y), registered);
    IdsDiffer(cfg, CallOf(calls, x).ordinal, CallOf(calls, y).ordinal);
  }

  //
  // One channel under each change of the shared state.
  //

  lemma ChannelStays(cfg: Config, core: Core, core': Core, x: nat, c: Call, c': Call)
    requires ChannelOk(cfg, core, x, c) && AnswersOk(core, x, c)
    requires core'.pending == core.pending && core'.sent == core.sent && core'.taken == core.taken
    requires core'.closed == core.closed && core'.terminal == core.terminal && Left(core') == Left(core)
    requires c'.ordinal == c.ordinal && c'.id == c.id && (c.pc.Returned? ==> c'.pc == c.pc) && AnswersOk(core, x, c')
    ensures ChannelOk(cfg, core', x, c') && AnswersOk(core', x, c')
  {
  }

  lemma ChannelUnderReply(cfg: Config, core: Core, id: string, reply: Reply, x: nat, c: Call)
    requires ChannelOk(cfg, core, x, c) && AnswersOk(core, x, c)
    requires !core.closed && !core.finish.Delivering? && id in core.pending
    requires core.pending[id] == x ==> id == c.id && c.ordinal > 0 && Fits(cfg, core, c.id, reply)
    requires core.pending[id] != x && c.ordinal > 0 ==> id != c.id
    ensures var core' := Forget(Post(core, core.pending[id], reply), id);
            ChannelOk(cfg, core', x, c) && AnswersOk(core', x, c)
  {
  }

  lemma ChannelUnderRegister(cfg: Config, core: Core, y: nat, x: nat, c: Call)
    requires ChannelOk(cfg, core, x, c) && AnswersOk(core, x, c) && x != y
    requires c.ordinal > 0 ==> c.id != RequestId(cfg.control, NextSequence(core.sequence))
    ensures ChannelOk(cfg, Register(cfg, core, y), x, c) && AnswersOk(Register(cfg, core, y), x, c)
  {
  }

  lemma NewChannel(cfg: Config, core: Core, x: nat, c: Call, c': Call)
    requires ChannelOk(cfg, core, x, c) && !core.closed && !core.finish.Delivering?
    requires c.ordinal == 0 && c'.ordinal > 0 && !c'.pc.Leaving? && !c'.pc.Returned?
    requires c'.id == RequestId(cfg.control, NextSequence(core.sequence))
    ensures ChannelOk(cfg, Register(cfg, core, x), x, c') && AnswersOk(Register(cfg, core, x), x, c')
  {
  }

  lemma ChannelUnderForget(cfg: Config, core: Core, id: string, x: nat, c: Call)
    requires ChannelOk(cfg, core, x, c) && AnswersOk(core, x, c)
    requires c.ordinal > 0 && !c.pc.Returned? ==> id != c.id
    ensures ChannelOk(cfg, Forget(core, id), x, c) && AnswersOk(Forget(core, id), x, c)
  {
  }

  lemma ChannelOfLeaver(cfg: Config, core: Core, x: nat, c: Call)
    requires ChannelOk(cfg, core, x, c) && AnswersOk(core, x, c) && c.pc.Leaving?
    ensures var core', c' := Forget(core, c.id), c.(pc := Returned(c.pc.outcome));
            ChannelOk(cfg, core', x, c') && AnswersOk(core', x, c')
  {
  }

  //
  // All channels and the pending map under each change.
  //

  ghost predicate LinksInv(cfg: Config, core: Core, calls: map<nat, Call>) {
    PendingInv(cfg, core, calls) && ChannelsInv(cfg, core, calls)
  }

  lemma LinksStay(cfg: Config, core: Core, core': Core, calls: map<nat, Call>)
    requires LinksInv(cfg, core, calls)
    requires core'.pending == core.pending && core'.sent == core.sent && core'.taken == core.taken
    requires core'.closed == core.closed && core'.terminal == core.terminal && Left(core') == Left(core)
    ensures LinksInv(cfg, core', calls)
  {
  }

  lemma CallMoves(cfg: Config, core: Core, calls: map<nat, Call>, y: nat, c': Call)
    requires LinksInv(cfg, core, calls) && AnswersOk(core, y, c')
    requires c'.ordinal == CallOf(calls, y).ordinal && c'.id == CallOf(calls, y).id
    requires CallOf(calls, y).pc.Returned? ==> c'.pc == CallOf(calls, y).pc
    requires c'.pc.Returned? ==> CallOf(calls, y).pc.Returned? || c'.ordinal == 0
    ensures LinksInv(cfg, core, calls[y := c'])
  {
    var calls' := calls[y := c'];
    forall x: nat
      ensures ChannelOk(cfg, core, x, CallOf(calls', x)) && AnswersOk(core, x, CallOf(calls', x))
    {
      ChannelStays(cfg, core, core, x, CallOf(calls, x), CallOf(calls', x));
    }
  }

  lemma LinksUnderFinish(cfg: Config, core: Core, calls: map<nat, Call>, cause: Error)
    requires LinksInv(cfg, core, calls) && (core.terminal.Some? ==> core.closed)
    ensures LinksInv(cfg, BeginFinish(core, cause), calls)
  {
  }

  lemma LinksUnderReply(
    cfg: Config, core: Core, calls: map<nat, Call>, registered: nat, id: string, reply: Reply)
    requires LinksInv(cfg, core, calls) && OrdinalsInv(cfg, calls, registered) && registered <= TWO_TO_THE_64
    requires !core.closed && !core.finish.Delivering? && id in core.pending
    requires (reply.Result? && reply.id == id && reply.session == cfg.control) || (reply.Fault? && reply.id == id)
    ensures LinksInv(cfg, Forget(Post(core, core.pending[id], reply), id), calls)
  {
    var y := core.pending[id];
    assert EntryOk(cfg, id, CallOf(calls, core.pending[id]));
    forall x: nat
      ensures ChannelOk(cfg, Forget(Post(core, y, reply), id), x, CallOf(calls, x))
      ensures AnswersOk(Forget(Post(core, y, reply), id), x, CallOf(calls, x))
    {
      if x != y && CallOf(calls, x).ordinal > 0 {
        CallIdsDiffer(cfg, calls, registered, x, y);
      }
      ChannelUnderReply(cfg, core, id, reply, x, CallOf(calls, x));
    }
  }

  lemma LinksUnderRegister(cfg: Config, core: Core, calls: map<nat, Call>, registered: nat, y: nat, c': Call)
    requires LinksInv(cfg, core, calls) && OrdinalsInv(cfg, calls, registered) && registered < TWO_TO_THE_64
    requires !core.closed && !core.finish.Delivering? && core.sequence == registered % TWO_TO_THE_64
    requires CallOf(calls, y).ordinal == 0 && c'.ordinal == registered + 1 && c'.id == IdOf(cfg, registered + 1)
    requires !c'.pc.Leaving? && !c'.pc.Returned?
    ensures LinksInv(cfg, Register(cfg, core, y), calls[y := c'])
  {
    NextId(cfg, registered);
    var core', calls' := Register(cfg, core, y), calls[y := c'];
    forall x: nat
      ensures ChannelOk(cfg, core', x, CallOf(calls', x)) && AnswersOk(core', x, CallOf(calls', x))
    {
      assert OrdinalOk(cfg, CallOf(calls, x), registered);
      if x == y {
        NewChannel(cfg, core, x, CallOf(calls, x), c');
      } else {
        if CallOf(calls, x).ordinal > 0 {
          IdsDiffer(cfg, CallOf(calls, x).ordinal, registered + 1);
        }
        ChannelUnderRegister(cfg, core, y, x, CallOf(calls, x));
      }
    }
    PendingUnderRegister(cfg, core, calls, y, c');
  }

  lemma PendingUnderRegister(cfg: Config, core: Core, calls: map<nat, Call>, y: nat, c': Call)
    requires PendingInv(cfg, core, calls) && CallOf(calls, y).ordinal == 0
    requires EntryOk(cfg, RequestId(cfg.control, NextSequence(core.sequence)), c')
    ensures PendingInv(cfg, Register(cfg, core, y), calls[y := c'])
  {
  }

  lemma LinksUnderTake(cfg: Config, core: Core, calls: map<nat, Call>, y: nat)
    requires LinksInv(cfg, core, calls) && SentTo(core, y) != []
    ensures LinksInv(cfg, core.(taken := core.taken + {y}), calls)
  {
  }

  lemma LinksUnderLeave(cfg: Config, core: Core, calls: map<nat, Call>, registered: nat, y: nat)
    requires LinksInv(cfg, core, calls) && OrdinalsInv(cfg, calls, registered) && registered <= TWO_TO_THE_64
    requires CallOf(calls, y).pc.Leaving?
    ensures var c := CallOf(calls, y);
            LinksInv(cfg, Forget(core, c.id), calls[y := c.(pc := Returned(c.pc.outcome))])
  {
    var c := CallOf(calls, y);
    var core', calls' := Forget(core, c.id), calls[y := c.(pc := Returned(c.pc.outcome))];
    assert OrdinalOk(cfg, CallOf(calls, y), registered);
    forall x: nat
      ensures ChannelOk(cfg, core', x, CallOf(calls', x)) && AnswersOk(core', x, CallOf(calls', x))
    {
      if x == y {
        ChannelOfLeaver(cfg, core, y, c);
      } else {
        if CallOf(calls, x).ordinal > 0 {
          CallIdsDiffer(cfg, calls, registered, x, y);
        }
        ChannelUnderForget(cfg, core, c.id, x, CallOf(calls, x));
      }
    }
    PendingUnderLeave(cfg, core, calls, y);
  }

  lemma PendingUnderLeave(cfg: Config, core: Core, calls: map<nat, Call>, y: nat)
    requires PendingInv(cfg, core, calls) && CallOf(calls, y).pc.Leaving?
    ensures var c := CallOf(calls, y);
            PendingInv(cfg, Forget(core, c.id), calls[y := c.(pc := Returned(c.pc.outcome))])
  {
  }

  //
  // The steps.
  //

  lemma OrdinalsStay(cfg: Config, calls: map<nat, Call>, registered: nat, y: nat, c': Call)
    requires OrdinalsInv(cfg, calls, registered)
    requires OrdinalOk(cfg, c', registered) && c'.ordinal == CallOf(calls, y).ordinal
    ensures OrdinalsInv(cfg, calls[y := c'], registered)
  {
    var calls' := calls[y := c'];
    forall x: nat
      ensures OrdinalOk(cfg, CallOf(calls', x), registered)
    {
      assert OrdinalOk(cfg, CallOf(calls, x), registered);
    }
    assert forall x: nat :: CallOf(calls', x).ordinal == CallOf(calls, x).ordinal;
  }

  lemma OrdinalsGrow(cfg: Config, calls: map<nat, Call>, registered: nat, y: nat, c': Call)
    requires OrdinalsInv(cfg, calls, registered)
    requires OrdinalOk(cfg, c', registered + 1) && c'.ordinal == registered + 1
    ensures OrdinalsInv(cfg, calls[y := c'], registered + 1)
  {
    var calls' := calls[y := c'];
    forall x: nat
      ensures OrdinalOk(cfg, CallOf(calls', x), registered + 1)
      ensures x != y ==> CallOf(calls', x) == CallOf(calls, x) && CallOf(calls, x).ordinal <= registered
    {
      assert OrdinalOk(cfg, CallOf(calls, x), registered);
    }
  }

  // The moves of a call that leave the shared state alone.
  predicate IsPrivate(core: Core, m: CallMove) {
    !m.Expire? && !m.TakeReply? && !m.Leave? && (m.Enroll? ==> core.closed)
  }

  lemma PrivateMove(cfg: Config, s: State, x: nat, c: Call, m: CallMove)
    requires CallEnabled(s.core, x, c, m) && IsPrivate(s.core, m)
    requires OrdinalOk(cfg, c, s.registered) && AnswersOk(s.core, x, c)
    ensures var step := CallStep(cfg, s, x, c, m);
            && step.0 == s.core
            && step.1.ordinal == c.ordinal && step.1.id == c.id
            && OrdinalOk(cfg, step.1, s.registered)
            && AnswersOk(s.core, x, step.1)
            && (c.pc.Returned? ==> step.1.pc == c.pc)
            && (step.1.pc.Returned? ==> c.pc.Returned? || c.ordinal == 0)
  {
  }

  lemma PrivateMoveKeepsReplies(cfg: Config, s: State, x: nat, m: CallMove)
    requires RepliesInv(cfg, s) && CallEnabled(s.core, x, CallOf(s.calls, x), m) && IsPrivate(s.core, m)
    ensures RepliesInv(cfg, Next(cfg, s, OfCall(x, m)))
  {
    var c := CallOf(s.calls, x);
    assert OrdinalOk(cfg, c, s.registered) && ChannelOk(cfg, s.core, x, c);
    PrivateMove(cfg, s, x, c, m);
    var step := CallStep(cfg, s, x, c, m);
    CallMoves(cfg, s.core, s.calls, x, step.1);
    OrdinalsStay(cfg, s.calls, s.registered, x, step.1);
  }

  lemma EnrollKeepsReplies(cfg: Config, s: State, x: nat)
    requires RepliesInv(cfg, s) && OrderInv(s.core, s.parentCancelled) && s.registered < TWO_TO_THE_64
    requires CallOf(s.calls, x).pc.Registering? && !s.core.closed
    ensures RepliesInv(cfg, Next(cfg, s, OfCall(x, Enroll)))
  {
    var c := CallOf(s.calls, x);
    assert OrdinalOk(cfg, c, s.registered);
    var c' := c.(pc := Marshalling, ordinal := s.registered + 1, id := IdOf(cfg, s.registered + 1));
    LinksUnderRegister(cfg, s.core, s.calls, s.registered, x, c');
    OrdinalsGrow(cfg, s.calls, s.registered, x, c');
    NextId(cfg, s.registered);
  }

  lemma ExpireKeepsReplies(cfg: Config, s: State, x: nat)
    requires RepliesInv(cfg, s) && OrderInv(s.core, s.parentCancelled)
    requires CallOf(s.calls, x).pc.Expiring?
    ensures RepliesInv(cfg, Next(cfg, s, OfCall(x, Expire)))
  {
    var c := CallOf(s.calls, x);
    assert OrdinalOk(cfg, c, s.registered) && ChannelOk(cfg, s.core, x, c);
    var c' := CallStep(cfg, s, x, c, Expire).1;
    CallMoves(cfg, s.core, s.calls, x, c');
    LinksUnderFinish(cfg, s.core, s.calls[x := c'], Expired);
    OrdinalsStay(cfg, s.calls, s.registered, x, c');
  }

  lemma TakeKeepsReplies(cfg: Config, s: State, x: nat)
    requires RepliesInv(cfg, s) && CallEnabled(s.core, x, CallOf(s.calls, x), TakeReply)
    ensures RepliesInv(cfg, Next(cfg, s, OfCall(x, TakeReply)))
  {
    var c := CallOf(s.calls, x);
    assert OrdinalOk(cfg, c, s.registered) && ChannelOk(cfg, s.core, x, c);
    var c' := c.(pc := Leaving(Replied(SentTo(s.core, x)[0])));
    CallMoves(cfg, s.core, s.calls, x, c');
    LinksUnderTake(cfg, s.core, s.calls[x := c'], x);
    OrdinalsStay(cfg, s.calls, s.registered, x, c');
  }

  lemma LeaveKeepsReplies(cfg: Config, s: State, x: nat)
    requires RepliesInv(cfg, s) && s.registered <= TWO_TO_THE_64 && CallOf(s.calls, x).pc.Leaving?
    ensures RepliesInv(cfg, Next(cfg, s, OfCall(x, Leave)))
  {
    var c := CallOf(s.calls, x);
    assert OrdinalOk(cfg, c, s.registered);
    LinksUnderLeave(cfg, s.core, s.calls, s.registered, x);
    OrdinalsStay(cfg, s.calls, s.registered, x, c.(pc := Returned(c.pc.outcome)));
  }

  lemma CallKeepsReplies(cfg: Config, s: State, x: nat, m: CallMove)
    requires RepliesInv(cfg, s) && OrderInv(s.core, s.parentCancelled)
    requires CallEnabled(s.core, x, CallOf(s.calls, x), m)
    requires Next(cfg, s, OfCall(x, m)).registered <= TWO_TO_THE_64
    ensures RepliesInv(cfg, Next(cfg, s, OfCall(x, m)))
  {
    if IsPrivate(s.core, m) {
      PrivateMoveKeepsReplies(cfg, s, x, m);
    } else if m.Enroll? {
      EnrollKeepsReplies(cfg, s, x);
    } else if m.Expire? {
      ExpireKeepsReplies(cfg, s, x);
    } else if m.TakeReply? {
      TakeKeepsReplies(cfg, s, x);
    } else {
      LeaveKeepsReplies(cfg, s, x);
    }
  }

  ghost predicate SameLinks(core: Core, core': Core) {
    && core'.pending == core.pending && core'.sent == core.sent && core'.taken == core.taken
    && core'.closed == core.closed && core'.terminal == core.terminal && core'.finish == core.finish
  }

  ghost predicate IsReply(core: Core, message: Message) {
    !core.closed && message.kind.Rpc? && CommandOf(message.rpc).Some? && CommandOf(message.rpc).value.request == ""
  }

  lemma HandleCases(cfg: Config, core: Core, message: Message, now: int)
    ensures var core' := Handle(cfg, core, message, now).core;
            SameLinks(core, core') ||
            (IsReply(core, message) && core' == HandleReply(cfg, core, CommandOf(message.rpc).value))
  {
  }

  lemma ReplyKeepsLinks(cfg: Config, core: Core, calls: map<nat, Call>, registered: nat, command: Command)
    requires LinksInv(cfg, core, calls) && OrdinalsInv(cfg, calls, registered) && registered <= TWO_TO_THE_64
    requires !core.closed && core.finish.NotBegun?
    ensures LinksInv(cfg, HandleReply(cfg, core, command), calls)
  {
    if command.id in core.pending && command.error.Some? {
      LinksUnderReply(cfg, core, calls, registered, command.id, Fault(command.id, command.error.value));
    } else if command.id in core.pending && command.resultSession == Some(cfg.control) {
      LinksUnderReply(cfg, core, calls, registered, command.id, Result(command.id, command.resultSession.value));
    }
  }

  lemma HandleKeepsLinks(cfg: Config, core: Core, calls: map<nat, Call>, registered: nat, message: Message, now: int)
    requires LinksInv(cfg, core, calls) && OrdinalsInv(cfg, calls, registered) && registered <= TWO_TO_THE_64
    requires core.closed <==> !core.finish.NotBegun?
    ensures LinksInv(cfg, Handle(cfg, core, message, now).core, calls)
  {
    HandleCases(cfg, core, message, now);
    var core' := Handle(cfg, core, message, now).core;
    if SameLinks(core, core') {
      LinksStay(cfg, core, core', calls);
    } else {
      ReplyKeepsLinks(cfg, core, calls, registered, CommandOf(message.rpc).value);
    }
  }

  lemma HandleKeepsSequence(cfg: Config, core: Core, message: Message, now: int)
    ensures Handle(cfg, core, message, now).core.sequence == core.sequence
  {
  }

  lemma EnvKeepsReplies(cfg: Config, s: State, m: EnvMove)
    requires RepliesInv(cfg, s) && OrderInv(s.core, s.parentCancelled) && s.registered <= TWO_TO_THE_64
    requires EnvEnabled(s, m)
    ensures RepliesInv(cfg, EnvStep(cfg, s, m))
  {
    match m {
      case Incoming(message) =>
        HandleKeepsLinks(cfg, s.core, s.calls, s.registered, message, s.now);
        HandleKeepsSequence(cfg, s.core, message, s.now);
      case FinishFromOutside(cause) => LinksUnderFinish(cfg, s.core, s.calls, cause);
      case _ => LinksStay(cfg, s.core, EnvStep(cfg, s, m).core, s.calls);
    }
  }

  lemma FinishKeepsLinks(cfg: Config, core: Core, parent: bool, calls: map<nat, Call>, m: FinishMove)
    requires LinksInv(cfg, core, calls) && OrderInv(core, parent) && FinishEnabled(core, m)
    ensures LinksInv(cfg, FinishStep(core, m), calls) && FinishStep(core, m).sequence == core.sequence
  {
  }

  lemma HeartbeatKeepsReplies(cfg: Config, s: State, m: HeartbeatMove)
    requires RepliesInv(cfg, s) && OrderInv(s.core, s.parentCancelled) && HeartbeatEnabled(s, m)
    ensures RepliesInv(cfg, HeartbeatStep(cfg, s, m))
  {
    if m.HeartbeatFinish? {
      LinksUnderFinish(cfg, s.core, s.calls, s.heartbeat.error);
    }
  }

  lemma ExpiryKeepsReplies(cfg: Config, s: State, m: ExpiryMove)
    requires RepliesInv(cfg, s) && OrderInv(s.core, s.parentCancelled) && ExpiryEnabled(cfg, s, m)
    ensures RepliesInv(cfg, ExpiryStep(cfg, s, m))
  {
    if m.ExpiryFinish? {
      LinksUnderFinish(cfg, s.core, s.calls, s.expiry.error);
    }
  }

  lemma NextKeepsReplies(cfg: Config, s: State, a: Action)
    requires RepliesInv(cfg, s) && OrderInv(s.core, s.parentCancelled) && Enabled(cfg, s, a)
    requires Next(cfg, s, a).registered <= TWO_TO_THE_64
    ensures RepliesInv(cfg, Next(cfg, s, a))
  {
    match a {
      case OfCall(x, m) => CallKeepsReplies(cfg, s, x, m);
      case OfHeartbeat(m) => HeartbeatKeepsReplies(cfg, s, m);
      case OfExpiry(m) => ExpiryKeepsReplies(cfg, s, m);
      case OfFinish(m) => FinishKeepsLinks(cfg, s.core, s.parentCancelled, s.calls, m);
      case OfEnvironment(m) => EnvKeepsReplies(cfg, s, m);
    }
  }
}
