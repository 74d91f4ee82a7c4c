/**
 The signaling session of internal/signaling/session.go as shared state: what its mutex, channels,
 done channel and context hold, and what each critical section does to them.
 */
module SessionCore {
  import opened Wire

  const EVENT_QUEUE_CAPACITY: nat := 32
  const MISSED_HEARTBEATS: nat := 3
  const JSONRPC_VERSION: string := "2.0"
  const TWO_TO_THE_64: nat := 0x1_0000_0000_0000_0000

  // Interrupted is the internal cancellation: what a write or a send returns when its context is
  // cancelled. SessionCancelled is the session context's own error. Both are context.Canceled in
  // the source.
  datatype Error =
    | Closed
    | Expired
    | HeartbeatLost
    | Backpressure
    | BadMessage
    | Interrupted
    | SessionCancelled
    | CallerCause(code: int)
    | DeadlineExceeded
    | Peer(code: int)
    | Other(code: int)

  predicate IsCancellation(e: Error) {
    e == Interrupted || e == SessionCancelled
  }

  // What a call's own context is cancelled with, other than the session's cause.
  predicate IsCallersCause(e: Error) {
    e.CallerCause? || e == DeadlineExceeded
  }

  datatype Config = Config(device: int, dialog: string, signal: string, control: string, heartbeat: nat, maxAge: nat)

  // Decoded messages. An undecodable part is None.
  datatype Identity = Identity(device: int, signal: string)
  datatype Kind = Pong | Rpc | Event(name: string)
  datatype Command = Command(
    jsonrpc: string, id: string, request: string, hasResult: bool, error: Option<int>, resultSession: Option<string>)
  datatype RpcBody = RpcBody(command: Option<Command>, wrapped: Option<Command>)
  datatype Message = Message(dialog: string, identity: Option<Identity>, kind: Kind, rpc: RpcBody, tag: int)

  // A value sent on a call's reply channel, with the ID and control session it answers.
  datatype Reply = Result(id: string, session: string) | Fault(id: string, code: int) | Ended(cause: Error)

  // The winning finish: replies still to deliver, context to cancel, all done.
  datatype Finish = NotBegun | Delivering(left: set<nat>) | Cancelling | Over

  // `sent` holds every value ever sent on the channel of a call, `taken` the calls that received one.
  datatype Core = Core(
    closed: bool,
    terminal: Option<Error>,
    sequence: nat,
    pending: map<string, nat>,
    sent: map<nat, seq<Reply>>,
    taken: set<nat>,
    lastPong: int,
    events: seq<Message>,
    doneClosed: nat,
    cancelled: bool,
    finish: Finish)

  //
  // Request IDs.
  //

  function Digit(d: nat): char
    requires d < 10
  {
    '0' + d as char
  }

  function Decimal(n: nat): (s: string)
    ensures s != ""
  {
    if n < 10 then [Digit(n)] else Decimal(n / 10) + [Digit(n % 10)]
  }

  function RequestId(control: string, sequence: nat): string {
    control + "-" + Decimal(sequence)
  }

  lemma {:induction false} DecimalIsInjective(m: nat, n: nat)
    requires Decimal(m) == Decimal(n)
    ensures m == n
  {
    var s := Decimal(m);
    assert m >= 10 ==> s[..|s| - 1] == Decimal(m / 10);
    assert n >= 10 ==> s[..|s| - 1] == Decimal(n / 10);
    assert s[|s| - 1] == Digit(m % 10) == Digit(n % 10);
    if m >= 10 && n >= 10 {
      DecimalIsInjective(m / 10, n / 10);
    }
  }

  lemma RequestIdsDiffer(control: string, m: nat, n: nat)
    ensures RequestId(control, m) == RequestId(control, n) <==> m == n
  {
    if RequestId(control, m) == RequestId(control, n) {
      assert RequestId(control, m)[|control| + 1..] == Decimal(m);
      assert RequestId(control, n)[|control| + 1..] == Decimal(n);
      DecimalIsInjective(m, n);
    }
  }

  //
  // The critical sections.
  //

  function NextSequence(s: nat): nat {
    (s + 1) % TWO_TO_THE_64
  }

  // Call registers its correlation and a new channel, on an open session.
  function Register(cfg: Config, core: Core, call: nat): Core {
    var n := NextSequence(core.sequence);
    core.(sequence := n, pending := core.pending[RequestId(cfg.control, n) := call])
  }

  // Call's deferred removal.
  function Forget(core: Core, id: string): Core {
    core.(pending := core.pending - {id})
  }

  function SentTo(core: Core, call: nat): seq<Reply> {
    if call in core.sent then core.sent[call] else []
  }

  // Values waiting in a reply channel, which holds one.
  function Waiting(core: Core, call: nat): int {
    |SentTo(core, call)| - if call in core.taken then 1 else 0
  }

  function Post(core: Core, call: nat, reply: Reply): Core {
    core.(sent := core.sent[call := SentTo(core, call) + [reply]])
  }

  datatype Handled = Handled(core: Core, error: Option<Error>)

  function HandleReply(cfg: Config, core: Core, command: Command): Core {
    if command.error.None? && command.resultSession != Some(cfg.control) then core
    else if command.id !in core.pending then core
    else
      var reply :=
        if command.error.Some? then Fault(command.id, command.error.value)
        else Result(command.id, command.resultSession.value);
      Forget(Post(core, core.pending[command.id], reply), command.id)
  }

  // The command a frame carries: itself, or the wrapped message if it names no version.
  function CommandOf(rpc: RpcBody): Option<Command> {
    if rpc.command.Some? && rpc.command.value.jsonrpc == "" then rpc.wrapped else rpc.command
  }

  predicate IsWellFormed(command: Command) {
    && command.jsonrpc == JSONRPC_VERSION
    && (command.request != "" ||
        (command.hasResult == command.error.None? &&
         (command.error.None? ==> command.resultSession.Some? && command.resultSession.value != "")))
  }

  function Enqueue(core: Core, m: Message): Handled {
    if |core.events| < EVENT_QUEUE_CAPACITY then Handled(core.(events := core.events + [m]), None)
    else Handled(core, Some(Backpressure))
  }

  predicate IsAddressed(cfg: Config, m: Message) {
    m.dialog == cfg.dialog && m.identity == Some(Identity(cfg.device, cfg.signal))
  }

  // Messages meant for the event queue: events, and well formed RPC frames that ask for something.
  predicate IsForQueue(cfg: Config, core: Core, m: Message) {
    && IsAddressed(cfg, m) && !core.closed
    && (m.kind.Event? ||
        (m.kind.Rpc? && CommandOf(m.rpc).Some? &&
         IsWellFormed(CommandOf(m.rpc).value) && CommandOf(m.rpc).value.request != ""))
  }

  // Handle at a moment `now` of the clock.
  function Handle(cfg: Config, core: Core, m: Message, now: int): (h: Handled)
    ensures h.core.events == core.events || (h.core.events == core.events + [m] && |core.events| < EVENT_QUEUE_CAPACITY)
  {
    if m.dialog != cfg.dialog then Handled(core, None)
    else if m.identity.None? then Handled(core, Some(BadMessage))
    else if !IsAddressed(cfg, m) then Handled(core, None)
    else if core.closed then Handled(core, core.terminal)
    else if m.kind.Pong? then Handled(core.(lastPong := now), None)
    else if m.kind.Event? then Enqueue(core, m)
    else
      var command := CommandOf(m.rpc);
      if command.None? || !IsWellFormed(command.value) then Handled(core, Some(BadMessage))
      else if command.value.request != "" then Enqueue(core, m)
      else Handled(HandleReply(cfg, core, command.value), None)
  }

  // finish up to its unlock: the cause is published and the pending calls are taken over.
  function BeginFinish(core: Core, cause: Error): Core {
    if core.closed then core
    else core.(closed := true, terminal := Some(cause), pending := map[], finish := Delivering(core.pending.Values))
  }

  // A non-blocking send: dropped if a value is waiting already.
  function Deliver(core: Core, call: nat): Core
    requires core.finish.Delivering? && core.terminal.Some?
  {
    var posted := if Waiting(core, call) < 1 then Post(core, call, Ended(core.terminal.value)) else core;
    posted.(finish := Delivering(core.finish.left - {call}))
  }

  function CloseDone(core: Core): Core {
    core.(doneClosed := core.doneClosed + 1, finish := Cancelling)
  }

  function CancelContext(core: Core): Core {
    core.(cancelled := true, finish := Over)
  }
}
