/** How the signaling session ends its workers, and how old it and its last pong can get. */
module SessionProgress {
  import opened Wire
  import opened SessionCore
  import opened SessionMachine
  import opened SessionSafety

  //
  // Joining the workers. Each rank bounds the steps that a thread can still take.
  //

  function FinishRank(core: Core): nat {
    match core.finish
    case NotBegun => 0
    case Delivering(left) => |left| + 2
    case Cancelling => 1
    case Over => 0
  }

  // On a closed session no send gets past its look at `closed`.
  function HeartbeatRank(pc: WorkerPc): nat {
    match pc
    case SendExpiry => 9
    case SendWriting => 8
    case Selecting => 7
    case Woken => 6
    case Arming => 5
    case SendContext => 4
    case SendClosed => 3
    case Failing(_) => 2
    case Finishing => 1
    case Gone => 0
  }

  function ExpiryRank(pc: WorkerPc): nat {
    match pc
    case Failing(_) => 2
    case Finishing => 1
    case Gone => 0
    case _ => 3
  }

  function WorkRank(s: State): nat {
    HeartbeatRank(s.heartbeat) + ExpiryRank(s.expiry)
  }

  // What the steps of the winning finish and of the workers use up.
  function EndRank(s: State): nat {
    FinishRank(s.core) + WorkRank(s)
  }

  predicate IsWork(a: Action) {
    a.OfHeartbeat? || a.OfExpiry?
  }

  predicate IsEnd(a: Action) {
    a.OfFinish? || IsWork(a)
  }

  lemma FinishStepDescends(core: Core, m: FinishMove)
    requires FinishEnabled(core, m)
    ensures FinishRank(FinishStep(core, m)) < FinishRank(core)
  {
  }

  lemma CallKeepsFinish(cfg: Config, s: State, x: nat, c: Call, m: CallMove)
    requires s.core.closed && CallEnabled(s.core, x, c, m)
    ensures CallStep(cfg, s, x, c, m).0.finish == s.core.finish
  {
  }

  lemma HandleKeepsFinish(cfg: Config, core: Core, message: Message, now: int)
    ensures Handle(cfg, core, message, now).core.finish == core.finish
  {
  }

  lemma OthersKeepFinish(cfg: Config, s: State, a: Action)
    requires s.core.closed && Enabled(cfg, s, a) && !a.OfFinish?
    ensures Next(cfg, s, a).core.finish == s.core.finish
  {
    if a.OfCall? {
      CallKeepsFinish(cfg, s, a.call, CallOf(s.calls, a.call), a.move);
    } else if a.OfEnvironment? && a.env.Incoming? {
      HandleKeepsFinish(cfg, s.core, a.env.message, s.now);
    }
  }

  lemma SomeFinishMove(core: Core)
    requires core.terminal.Some? && !core.finish.NotBegun? && !core.finish.Over?
    ensures exists m: FinishMove :: FinishEnabled(core, m)
  {
    if core.finish.Cancelling? {
      assert FinishEnabled(core, CancelSession);
    } else if core.finish.left == {} {
      assert FinishEnabled(core, CloseDoneChannel);
    } else {
      var x :| x in core.finish.left;
      assert FinishEnabled(core, DeliverTo(x));
    }
  }

  lemma HeartbeatDescends(cfg: Config, s: State, m: HeartbeatMove)
    requires s.core.closed && HeartbeatEnabled(s, m)
    ensures var s' := HeartbeatStep(cfg, s, m);
            HeartbeatRank(s'.heartbeat) < HeartbeatRank(s.heartbeat) && s'.expiry == s.expiry
  {
  }

  lemma ExpiryDescends(cfg: Config, s: State, m: ExpiryMove)
    requires s.core.closed && ExpiryEnabled(cfg, s, m)
    ensures var s' := ExpiryStep(cfg, s, m);
            ExpiryRank(s'.expiry) < ExpiryRank(s.expiry) && s'.heartbeat == s.heartbeat
  {
  }

  lemma OthersLeaveWorkers(cfg: Config, s: State, a: Action)
    requires Enabled(cfg, s, a) && !IsWork(a)
    ensures Next(cfg, s, a).heartbeat == s.heartbeat && Next(cfg, s, a).expiry == s.expiry
  {
  }

  lemma WorkDescends(cfg: Config, s: State, a: Action)
    requires s.core.closed && Enabled(cfg, s, a)
    ensures WorkRank(Next(cfg, s, a)) + (if IsWork(a) then 1 else 0) <= WorkRank(s)
  {
    match a {
      case OfHeartbeat(m) => HeartbeatDescends(cfg, s, m);
      case OfExpiry(m) => ExpiryDescends(cfg, s, m);
      case _ => OthersLeaveWorkers(cfg, s, a);
    }
  }

  lemma EndDescends(cfg: Config, s: State, a: Action)
    requires s.core.closed && Enabled(cfg, s, a)
    ensures EndRank(Next(cfg, s, a)) + (if IsEnd(a) then 1 else 0) <= EndRank(s)
  {
    WorkDescends(cfg, s, a);
    if a.OfFinish? {
      FinishStepDescends(s.core, a.end);
    } else {
      OthersKeepFinish(cfg, s, a);
    }
  }

  function HeartbeatMoveAt(pc: WorkerPc): HeartbeatMove {
    match pc
    case Selecting => HeartbeatSeesContext
    case Woken => Check
    case Arming => Arm
    case SendContext => PingContext
    case SendClosed => PingClosed
    case SendExpiry => PingExpiry
    case SendWriting => PingStop
    case Failing(_) => HeartbeatFinish
    case _ => HeartbeatEnd
  }

  // A worker that is not gone can go on once the finish is over, even one that is blocked in a write.
  lemma SomeWork(cfg: Config, s: State)
    requires s.core.cancelled && s.core.finish.Over? && WorkRank(s) > 0
    requires s.expiry.Selecting? || s.expiry.Failing? || s.expiry.Finishing? || s.expiry.Gone?
    ensures exists a: Action :: IsEnd(a) && Enabled(cfg, s, a)
  {
    if !s.heartbeat.Gone? {
      assert Enabled(cfg, s, OfHeartbeat(HeartbeatMoveAt(s.heartbeat)));
    } else {
      assert Enabled(cfg, s, OfExpiry(
        if s.expiry.Selecting? then ExpirySeesContext else if s.expiry.Failing? then ExpiryFinish else ExpiryEnd));
    }
  }

  lemma SomeEnd(cfg: Config, s: State)
    requires OrderInv(s.core, s.parentCancelled) && WorkersInv(cfg, s) && s.core.closed
    ensures (s.core.finish.Over? && s.heartbeat.Gone? && s.expiry.Gone?) ||
            exists a: Action :: IsEnd(a) && Enabled(cfg, s, a)
  {
    if !s.core.finish.Over? {
      SomeFinishMove(s.core);
      var m: FinishMove :| FinishEnabled(s.core, m);
      assert Enabled(cfg, s, OfFinish(m));
    } else if WorkRank(s) > 0 {
      SomeWork(cfg, s);
    }
  }

  //
  // The workers of an open session.
  //

  // While the session is open neither worker is gone, except the heartbeat worker after a cancel.
  ghost predicate AliveInv(s: State) {
    !s.core.closed ==>
      && (s.expiry.Selecting? || s.expiry.Failing?)
      && !s.heartbeat.Finishing?
      && (s.heartbeat.Gone? ==> s.core.cancelled)
  }

  lemma HeartbeatKeepsAlive(cfg: Config, s: State, m: HeartbeatMove)
    requires AliveInv(s) && HeartbeatEnabled(s, m)
    ensures AliveInv(HeartbeatStep(cfg, s, m))
  {
  }

  lemma ExpiryKeepsAlive(cfg: Config, s: State, m: ExpiryMove)
    requires AliveInv(s) && ExpiryEnabled(cfg, s, m)
    ensures AliveInv(ExpiryStep(cfg, s, m))
  {
  }

  lemma NextKeepsAlive(cfg: Config, s: State, a: Action)
    requires OrderInv(s.core, s.parentCancelled) && AliveInv(s) && Enabled(cfg, s, a)
    ensures AliveInv(Next(cfg, s, a))
  {
    match a {
      case OfHeartbeat(m) => HeartbeatKeepsAlive(cfg, s, m);
      case OfExpiry(m) => ExpiryKeepsAlive(cfg, s, m);
      case _ =>
        NextKeepsOrder(cfg, s, a);
        OthersLeaveWorkers(cfg, s, a);
    }
  }

  //
  // Time. It waits for work that is due, and for nothing else: for a woken worker to go back to its
  // select or its send, for a select whose timer has fired or whose context is cancelled, and for a
  // send to end before the next tick. A worker that is gone holds nothing up.
  //

  predicate HeartbeatAllows(s: State, until: int) {
    match s.heartbeat
    case Selecting => !s.core.cancelled && until <= s.tickAt
    case Woken => false
    case Arming => false
    case Failing(_) => false
    case Finishing => false
    case Gone => true
    case _ => until <= s.tickAt
  }

  predicate ExpiryAllows(cfg: Config, s: State, until: int) {
    match s.expiry
    case Selecting => !s.core.cancelled && until <= s.start + cfg.maxAge
    case Gone => true
    case _ => false
  }

  predicate IsPrompt(cfg: Config, s: State, a: Action) {
    a.OfEnvironment? && a.env.Advance? && a.env.ticks > 0 && !s.core.closed ==>
      HeartbeatAllows(s, s.now + a.env.ticks) && ExpiryAllows(cfg, s, s.now + a.env.ticks)
  }

  // Time never waits in vain: if it may not pass, a worker has a step to take.
  lemma TimeWaitsForWork(cfg: Config, s: State)
    requires OrderInv(s.core, s.parentCancelled) && AliveInv(s)
    requires !IsPrompt(cfg, s, OfEnvironment(Advance(1)))
    ensures exists a: Action :: IsWork(a) && Enabled(cfg, s, a)
  {
    if !HeartbeatAllows(s, s.now + 1) {
      assert Enabled(cfg, s, OfHeartbeat(DueMove(s)));
    } else {
      assert Enabled(cfg, s, OfExpiry(
        if s.expiry.Failing? then ExpiryFinish else if s.core.cancelled then ExpirySeesContext else Timer));
    }
  }

  function DueMove(s: State): HeartbeatMove {
    match s.heartbeat
    case Selecting => if s.core.cancelled then HeartbeatSeesContext else Wake
    case SendWriting => PingWrite(None)
    case _ => HeartbeatMoveAt(s.heartbeat)
  }

  ghost predicate PongInv(cfg: Config, s: State) {
    if s.heartbeat.Selecting? || s.heartbeat.SendContext? || IsSending(s.heartbeat) then
      s.now <= s.tickAt < s.core.lastPong + (MISSED_HEARTBEATS + 1) * cfg.heartbeat
    else if s.heartbeat.Arming? then
      s.now < s.core.lastPong + MISSED_HEARTBEATS * cfg.heartbeat
    else
      s.now < s.core.lastPong + (MISSED_HEARTBEATS + 1) * cfg.heartbeat
  }

  ghost predicate TimeInv(cfg: Config, s: State) {
    !s.core.closed ==> s.core.lastPong <= s.now <= s.start + cfg.maxAge && PongInv(cfg, s)
  }

  lemma HeartbeatKeepsTime(cfg: Config, s: State, m: HeartbeatMove)
    requires cfg.heartbeat > 0 && TimeInv(cfg, s) && HeartbeatEnabled(s, m)
    ensures TimeInv(cfg, HeartbeatStep(cfg, s, m))
  {
  }

  lemma EnvKeepsTime(cfg: Config, s: State, m: EnvMove)
    requires TimeInv(cfg, s) && AliveInv(s) && EnvEnabled(s, m) && IsPrompt(cfg, s, OfEnvironment(m))
    ensures TimeInv(cfg, EnvStep(cfg, s, m))
  {
  }

  lemma CallKeepsTime(cfg: Config, s: State, x: nat, m: CallMove)
    requires TimeInv(cfg, s) && CallEnabled(s.core, x, CallOf(s.calls, x), m)
    ensures TimeInv(cfg, Next(cfg, s, OfCall(x, m)))
  {
  }

  lemma FinishLeavesPong(core: Core, m: FinishMove)
    requires FinishEnabled(core, m)
    ensures FinishStep(core, m).lastPong == core.lastPong && FinishStep(core, m).closed == core.closed
  {
  }

  lemma NextKeepsTime(cfg: Config, s: State, a: Action)
    requires cfg.heartbeat > 0 && TimeInv(cfg, s) && AliveInv(s) && Enabled(cfg, s, a) && IsPrompt(cfg, s, a)
    ensures TimeInv(cfg, Next(cfg, s, a))
  {
    match a {
      case OfCall(x, m) => CallKeepsTime(cfg, s, x, m);
      case OfHeartbeat(m) => HeartbeatKeepsTime(cfg, s, m);
      case OfExpiry(m) =>
      case OfFinish(m) => FinishLeavesPong(s.core, m);
      case OfEnvironment(m) => EnvKeepsTime(cfg, s, m);
    }
  }
}
