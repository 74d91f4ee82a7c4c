/**
 The session object itself: its fields, its reply channels, and the critical sections that update them
 in place, each proved to do what SessionCore says. `finish` is proved here run by itself; its
 interleavings are those of SessionMachine.
 */
module SignalingSession {
  import opened Wire
  import opened SessionCore
  import opened SessionMachine

  // A channel with room for one value. `owner` is the call that made it.
  class ReplyChannel {
    ghost const owner: nat
    var buffer: seq<Reply>

    constructor (ghost owner: nat)
      ensures this.owner == owner && buffer == []
    {
      this.owner := owner;
      buffer := [];
    }

    // A plain send, which would block for ever on a full channel.
    method Send(reply: Reply)
      requires buffer == []
      modifies this
      ensures buffer == [reply]
    {
      buffer := buffer + [reply];
    }

    // A send that gives up on a full channel.
    method TrySend(reply: Reply)
      modifies this
      ensures buffer == if |old(buffer)| < 1 then old(buffer) + [reply] else old(buffer)
    {
      if |buffer| < 1 {
        buffer := buffer + [reply];
      }
    }
  }

  // A finish that nothing interrupts.
  ghost function Finished(core: Core, cause: Error): Core {
    if core.closed then core
    else core.(
      closed := true,
      terminal := Some(cause),
      pending := map[],
      sent := SentToAll(core.sent, core.pending.Values, Ended(cause)),
      doneClosed := core.doneClosed + 1,
      cancelled := true,
      finish := Over)
  }

  ghost function SentToAll(sent: map<nat, seq<Reply>>, calls: set<nat>, reply: Reply): map<nat, seq<Reply>> {
    map x | x in sent.Keys + calls ::
      if x in calls then (if x in sent then sent[x] else []) + [reply] else sent[x]
  }

  lemma SentToOneMore(sent: map<nat, seq<Reply>>, calls: set<nat>, x: nat, reply: Reply)
    requires x !in calls
    ensures var some := SentToAll(sent, calls, reply);
            some[x := (if x in some then some[x] else []) + [reply]] == SentToAll(sent, calls + {x}, reply)
  {
  }

  //
  // Every way the winning finish can take its steps ends in that state.
  //

  ghost predicate CanTake(core: Core, moves: seq<FinishMove>)
    decreases |moves|
  {
    moves == [] || (FinishEnabled(core, moves[0]) && CanTake(FinishStep(core, moves[0]), moves[1..]))
  }

  ghost function AfterAll(core: Core, moves: seq<FinishMove>): Core
    requires CanTake(core, moves)
    decreases |moves|
  {
    if moves == [] then core else AfterAll(FinishStep(core, moves[0]), moves[1..])
  }

  // The finish after it has answered these calls.
  ghost function Partway(core: Core, cause: Error, answered: set<nat>): Core {
    BeginFinish(core, cause).(
      sent := SentToAll(core.sent, answered, Ended(cause)),
      finish := Delivering(core.pending.Values - answered))
  }

  lemma DeliverFurther(core: Core, cause: Error, answered: set<nat>, x: nat)
    requires !core.closed && SentTo(core, x) == [] && x !in answered
    ensures Deliver(Partway(core, cause, answered), x) == Partway(core, cause, answered + {x})
  {
    var c := Partway(core, cause, answered);
    SentToOneMore(core.sent, answered, x, Ended(cause));
    assert SentTo(c, x) == [];
    assert core.pending.Values - answered - {x} == core.pending.Values - (answered + {x});
  }

  lemma NoneLeft(all: set<nat>, answered: set<nat>)
    requires answered <= all && all - answered == {}
    ensures answered == all
  {
    assert all == answered + (all - answered);
  }

  lemma {:induction false} FinishFromPartway(core: Core, cause: Error, answered: set<nat>, moves: seq<FinishMove>)
    requires !core.closed && forall x | x in core.pending.Values :: SentTo(core, x) == []
    requires answered <= core.pending.Values
    requires CanTake(Partway(core, cause, answered), moves)
    requires AfterAll(Partway(core, cause, answered), moves).finish.Over?
    ensures AfterAll(Partway(core, cause, answered), moves) == Finished(core, cause)
    decreases |moves|
  {
    var c := Partway(core, cause, answered);
    if moves[0].DeliverTo? {
      DeliverFurther(core, cause, answered, moves[0].call);
      FinishFromPartway(core, cause, answered + {moves[0].call}, moves[1..]);
    } else {
      NoneLeft(core.pending.Values, answered);
      FinishFromClosed(CloseDone(c), moves[1..]);
    }
  }

  lemma OverIsOver(core: Core, moves: seq<FinishMove>)
    requires core.finish.Over? && CanTake(core, moves)
    ensures moves == []
  {
  }

  lemma FinishFromClosed(core: Core, moves: seq<FinishMove>)
    requires core.finish.Cancelling? && CanTake(core, moves) && AfterAll(core, moves).finish.Over?
    ensures AfterAll(core, moves) == CancelContext(core)
  {
    assert moves[0] == CancelSession;
    OverIsOver(CancelContext(core), moves[1..]);
  }

  /** However the pending calls are ordered, begin, deliveries, close and cancel add up to Finished. */
  lemma EveryFinishIsFinished(core: Core, cause: Error, moves: seq<FinishMove>)
    requires !core.closed && forall x | x in core.pending.Values :: SentTo(core, x) == []
    requires CanTake(BeginFinish(core, cause), moves) && AfterAll(BeginFinish(core, cause), moves).finish.Over?
    ensures AfterAll(BeginFinish(core, cause), moves) == Finished(core, cause)
  {
    assert SentToAll(core.sent, {}, Ended(cause)) == core.sent;
    assert BeginFinish(core, cause) == Partway(core, cause, {});
    FinishFromPartway(core, cause, {}, moves);
  }

  ghost predicate SentNothing(sent: map<nat, seq<Reply>>, x: nat) {
    x in sent ==> sent[x] == []
  }

  ghost function OwnersOf(channels: map<string, ReplyChannel>): map<string, nat> {
    map id | id in channels :: channels[id].owner
  }

  ghost function Owners(channels: map<string, ReplyChannel>, ids: set<string>): set<nat> {
    set id | id in ids && id in channels :: channels[id].owner
  }

  lemma OwnersWithout(channels: map<string, ReplyChannel>, id: string)
    ensures OwnersOf(channels - {id}) == OwnersOf(channels) - {id}
  {
  }

  lemma OwnersWith(channels: map<string, ReplyChannel>, id: string, channel: ReplyChannel)
    ensures OwnersOf(channels[id := channel]) == OwnersOf(channels)[id := channel.owner]
  {
  }

  lemma AllOwners(channels: map<string, ReplyChannel>)
    ensures OwnersOf(channels).Values == Owners(channels, channels.Keys)
  {
    forall x | x in Owners(channels, channels.Keys)
      ensures x in OwnersOf(channels).Values
    {
      var id :| id in channels && channels[id].owner == x;
      assert OwnersOf(channels)[id] == x;
    }
  }

  ghost predicate AreDistinct(channels: map<string, ReplyChannel>) {
    forall id, id' | id in channels && id' in channels && channels[id].owner == channels[id'].owner :: id == id'
  }

  lemma OwnersOneLess(channels: map<string, ReplyChannel>, ids: set<string>, id: string)
    requires AreDistinct(channels) && id in ids && id in channels
    ensures Owners(channels, ids - {id}) == Owners(channels, ids) - {channels[id].owner}
  {
  }

  lemma OwnersOneMore(channels: map<string, ReplyChannel>, ids: set<string>, id: string)
    requires AreDistinct(channels) && id !in ids && id in channels
    ensures Owners(channels, ids + {id}) == Owners(channels, ids) + {channels[id].owner}
    ensures channels[id].owner !in Owners(channels, ids)
  {
  }

  lemma AnsweredOneMore(
    channels: map<string, ReplyChannel>, sent: map<nat, seq<Reply>>, ids: set<string>, id: string, reply: Reply)
    requires AreDistinct(channels) && id !in ids && id in channels
    ensures var some, x := SentToAll(sent, Owners(channels, ids), reply), channels[id].owner;
            some[x := (if x in some then some[x] else []) + [reply]]
            == SentToAll(sent, Owners(channels, ids + {id}), reply)
  {
    OwnersOneMore(channels, ids, id);
    SentToOneMore(sent, Owners(channels, ids), channels[id].owner, reply);
  }

  // Channels on which nothing has been sent.
  ghost predicate AreEmpty(channels: map<string, ReplyChannel>, ids: set<string>, sent: map<nat, seq<Reply>>)
    reads channels.Values
  {
    forall id | id in ids && id in channels :: channels[id].buffer == [] && SentNothing(sent, channels[id].owner)
  }

  // Channels that got this value and nothing else.
  ghost predicate AreAnswered(channels: map<string, ReplyChannel>, ids: set<string>, reply: Reply)
    reads channels.Values
  {
    forall id | id in ids && id in channels :: channels[id].buffer == [reply]
  }

  class Session {
    const cfg: Config
    var closed: bool
    var terminal: Option<Error>
    var sequence: nat
    var pending: map<string, ReplyChannel>
    var lastPong: int
    var events: seq<Message>
    var doneClosed: nat
    var cancelled: bool
    ghost var sent: map<nat, seq<Reply>>
    ghost var taken: set<nat>
    ghost var phase: Finish

    ghost function View(): Core
      reads this
    {
      Core(closed, terminal, sequence, OwnersOf(pending), sent, taken, lastPong, events, doneClosed,
        cancelled, phase)
    }

    // Every pending channel is empty, and belongs to one call alone.
    ghost predicate Valid()
      reads this, pending.Values
    {
      AreEmpty(pending, pending.Keys, sent) && AreDistinct(pending)
    }

    constructor (cfg: Config, now: int)
      ensures Valid() && this.cfg == cfg
      ensures View() == Core(false, None, 0, map[], map[], {}, now, [], 0, false, NotBegun)
    {
      this.cfg := cfg;
      closed, terminal, sequence, pending := false, None, 0, map[];
      lastPong, events, doneClosed, cancelled := now, [], 0, false;
      sent, taken, phase := map[], {}, NotBegun;
    }

    /** The registration in Call: on a closed session its cause, otherwise a new ID and a new channel. */
    method Enroll(ghost call: nat) returns (id: string, channel: ReplyChannel?, error: Option<Error>)
      requires Valid() && (closed <==> terminal.Some?)
      requires SentNothing(sent, call) && call !in Owners(pending, pending.Keys)
      modifies this`sequence, this`pending
      ensures Valid()
      ensures old(closed) ==> error == old(terminal) && error.Some? && View() == old(View())
      ensures !old(closed) ==>
                && error.None?
                && View() == Register(cfg, old(View()), call)
                && id == RequestId(cfg.control, sequence)
                && id in pending && pending[id] == channel && fresh(channel) && channel.owner == call
    {
      id, channel, error := "", null, None;
      if closed {
        error := terminal;
        return;
      }
      sequence := NextSequence(sequence);
      id := RequestId(cfg.control, sequence);
      var made := new ReplyChannel(call);
      channel := made;
      OwnersWith(pending, id, made);
      pending := pending[id := made];
    }

    /** The deferred removal in Call. */
    method Delete(id: string)
      requires Valid()
      modifies this`pending
      ensures Valid() && View() == Forget(old(View()), id)
    {
      OwnersWithout(pending, id);
      pending := pending - {id};
    }

    method Answer(id: string, reply: Reply)
      requires Valid() && id in pending
      modifies this`pending, this`sent, pending[id]
      ensures Valid() && View() == Forget(Post(old(View()), old(pending[id].owner), reply), id)
      ensures pending == old(pending) - {id} && old(pending)[id].buffer == [reply]
    {
      var channel := pending[id];
      channel.Send(reply);
      sent := Post(View(), channel.owner, reply).sent;
      OwnersWithout(pending, id);
      pending := pending - {id};
    }

    /** The reply part of handleRPC. The send is made with the mutex held, and finds an empty channel. */
    method AnswerPending(command: Command)
      requires Valid()
      modifies this`pending, this`sent, pending.Values
      ensures Valid() && View() == HandleReply(cfg, old(View()), command)
      ensures forall id | id in old(pending) && id in pending :: pending[id] == old(pending)[id]
      ensures forall id | id in old(pending) && id !in pending ::
                && id == command.id
                && (command.error.None? ==> command.resultSession == Some(cfg.control))
                && old(pending)[id].buffer ==
                [if command.error.Some? then Fault(id, command.error.value)
                 else Result(id, command.resultSession.value)]
    {
      if command.error.None? && command.resultSession != Some(cfg.control) {
        return;
      }
      if command.id in pending {
        Answer(command.id,
          if command.error.Some? then Fault(command.id, command.error.value)
          else Result(command.id, command.resultSession.value));
      }
    }

    method Offer(message: Message) returns (error: Option<Error>)
      requires Valid()
      modifies this`events
      ensures Valid() && View() == Enqueue(old(View()), message).core && error == Enqueue(old(View()), message).error
    {
      if |events| < EVENT_QUEUE_CAPACITY {
        events := events + [message];
        error := None;
      } else {
        error := Some(Backpressure);
      }
    }

    /** Handle. */
    method HandleMessage(message: Message, now: int) returns (error: Option<Error>)
      requires Valid()
      modifies this`lastPong, this`events, this`pending, this`sent, pending.Values
      ensures Valid()
      ensures View() == Handle(cfg, old(View()), message, now).core
      ensures error == Handle(cfg, old(View()), message, now).error
    {
      error := None;
      if message.dialog != cfg.dialog {
        return;
      }
      if message.identity.None? {
        return Some(BadMessage);
      }
      if message.identity.value.device != cfg.device || message.identity.value.signal != cfg.signal {
        return;
      }
      if closed {
        return terminal;
      }
      if message.kind.Pong? {
        lastPong := now;
        return;
      }
      if message.kind.Rpc? {
        var command := CommandOf(message.rpc);
        if command.None? || !IsWellFormed(command.value) {
          return Some(BadMessage);
        }
        if command.value.request == "" {
          AnswerPending(command.value);
          return;
        }
      }
      error := Offer(message);
    }

    method Receive() returns (message: Message)
      requires Valid() && events != []
      modifies this`events
      ensures Valid() && [message] + events == old(events) && View() == old(View()).(events := events)
    {
      message := events[0];
      events := events[1..];
    }

    // One turn of the loop in finish.
    method DeliverTo(
      channels: map<string, ReplyChannel>, ghost left: set<string>, ghost reached: set<string>, id: string,
      cause: Error)
      requires pending == map[] && terminal == Some(cause) && phase == Delivering(Owners(channels, left))
      requires id in left && left <= channels.Keys && left !! reached && AreDistinct(channels)
      requires AreEmpty(channels, left, sent) && AreAnswered(channels, reached, Ended(cause))
      modifies this`sent, this`phase, channels[id]
      ensures View() == Deliver(old(View()), channels[id].owner)
      ensures phase == Delivering(Owners(channels, left - {id}))
      ensures AreEmpty(channels, left - {id}, sent) && AreAnswered(channels, reached + {id}, Ended(cause))
      ensures sent == old(sent)[channels[id].owner := SentTo(old(View()), channels[id].owner) + [Ended(cause)]]
    {
      channels[id].TrySend(Ended(cause));
      OwnersOneLess(channels, left, id);
      ghost var after := Deliver(View(), channels[id].owner);
      sent, phase := after.sent, after.finish;
    }

    // The loop in finish, over the channels taken over in some order.
    method DeliverAll(channels: map<string, ReplyChannel>, cause: Error)
      requires pending == map[] && terminal == Some(cause) && phase == Delivering(Owners(channels, channels.Keys))
      requires AreDistinct(channels) && AreEmpty(channels, channels.Keys, sent)
      modifies this`sent, this`phase, channels.Values
      ensures phase == Delivering({})
      ensures AreAnswered(channels, channels.Keys, Ended(cause))
      ensures sent == SentToAll(old(sent), Owners(channels, channels.Keys), Ended(cause))
    {
      var todo := channels.Keys;
      ghost var reached := {};
      while todo != {}
        invariant todo + reached == channels.Keys && todo !! reached
        invariant phase == Delivering(Owners(channels, todo))
        invariant AreEmpty(channels, todo, sent) && AreAnswered(channels, reached, Ended(cause))
        invariant sent == SentToAll(old(sent), Owners(channels, reached), Ended(cause))
      {
        var id :| id in todo;
        AnsweredOneMore(channels, old(sent), reached, id, Ended(cause));
        DeliverTo(channels, todo, reached, id, cause);
        todo, reached := todo - {id}, reached + {id};
      }
    }

    // finish up to its unlock.
    method TakeOver(cause: Error) returns (channels: map<string, ReplyChannel>)
      requires Valid() && !closed
      modifies this`closed, this`terminal, this`pending, this`phase
      ensures View() == BeginFinish(old(View()), cause) && Valid()
      ensures channels == old(pending) && phase == Delivering(Owners(channels, channels.Keys))
    {
      channels := pending;
      AllOwners(channels);
      closed, terminal, pending := true, Some(cause), map[];
      phase := Delivering(Owners(channels, channels.Keys));
    }

    /** finish: whoever comes first publishes the cause, answers every pending call, closes done, cancels. */
    method FinishWith(cause: Error)
      requires Valid()
      modifies this, pending.Values
      ensures Valid() && View() == Finished(old(View()), cause)
      ensures !old(closed) ==> AreAnswered(old(pending), old(pending).Keys, Ended(cause))
    {
      if closed {
        return;
      }
      AllOwners(pending);
      var channels := TakeOver(cause);
      DeliverAll(channels, cause);
      doneClosed := doneClosed + 1;
      cancelled := true;
      phase := Over;
    }
  }
}
