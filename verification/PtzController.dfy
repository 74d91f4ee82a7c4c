/**
 The PTZ control loop of cmd/go-ring/view.go. The camera acknowledges or fails each command as an
 oracle says; every attempt is logged. A failed start is taken to have no effect.
 */
module PtzController {
  import opened Wire

  datatype Axis = Pan | Tilt
  datatype Direction = Left | Right | Up | Down
  datatype Command = Start(axis: Axis, direction: Direction) | Stop(axis: Axis) | Step(axis: Axis, direction: Direction)
  datatype Try = Try(command: Command, acked: bool)

  // Milliseconds.
  const IDLE_TIMEOUT: nat := 350

  // What wakes the loop: a key handled at a time, the clock reaching a time, or the end (a closed
  // key channel, q, an interrupt, a cancelled context, an event or media error).
  datatype Event = Pressed(key: char, at: nat) | Clock(at: nat) | End(err: bool)

  function KeyAxis(key: char): Option<Axis> {
    if key == 'C' || key == 'D' then Some(Pan) else if key == 'A' || key == 'B' then Some(Tilt) else None
  }

  function KeyDirection(key: char): Direction {
    if key == 'A' then Up else if key == 'B' then Down else if key == 'C' then Right else Left
  }

  predicate IsQuit(key: char) {
    key == 'q' || key == 'Q'
  }

  //
  // The controller on values.
  //

  // `timeout` is the deadline of the armed idle timer, None for the nil channel.
  datatype Control = Control(active: Option<Axis>, lastKey: char, timeout: Option<nat>, log: seq<Try>)

  // The new state, and whether the handler returned an error.
  datatype Handled = Handled(control: Control, err: bool)

  function Send(fails: nat -> bool, c: Control, command: Command): Handled {
    Handled(c.(log := c.log + [Try(command, !fails(|c.log|))]), fails(|c.log|))
  }

  function StopMoving(fails: nat -> bool, c: Control): Handled {
    if c.active.None? then Handled(c, false) else
    var sent := Send(fails, c, Stop(c.active.value));
    if sent.err then sent else Handled(sent.control.(active := None), false)
  }

  function Drive(fails: nat -> bool, continuous: bool, c: Control, key: char, at: nat): Handled
    requires KeyAxis(key).Some?
  {
    var axis := KeyAxis(key).value;
    if !continuous then Send(fails, c, Step(axis, KeyDirection(key))) else
    var started := if c.active.None? then Send(fails, c, Start(axis, KeyDirection(key))) else Handled(c, false);
    if started.err then started else
    var moving := if c.active.None? then started.control.(active := Some(axis), lastKey := key) else c;
    Handled(moving.(timeout := Some(at + IDLE_TIMEOUT)), false)
  }

  function OnKey(fails: nat -> bool, continuous: bool, c: Control, key: char, at: nat): Handled {
    if key == ' ' then StopMoving(fails, c.(timeout := None))
    else if KeyAxis(key).None? then Handled(c, false) else
    var stopped :=
      if c.active.Some? && (KeyAxis(key) != c.active || key != c.lastKey) then StopMoving(fails, c)
      else Handled(c, false);
    if stopped.err then stopped else Drive(fails, continuous, stopped.control, key, at)
  }

  function OnClock(fails: nat -> bool, c: Control, at: nat): Handled {
    if c.timeout.None? || at < c.timeout.value then Handled(c, false) else
    var stopped := StopMoving(fails, c);
    if stopped.err then stopped else Handled(stopped.control.(timeout := None), false)
  }

  datatype Looped = Running(control: Control) | Returned(control: Control, err: bool)

  function OnEvent(fails: nat -> bool, continuous: bool, c: Control, e: Event): Looped {
    match e
    case End(err) => Returned(c, err)
    case Clock(at) =>
      var h := OnClock(fails, c, at);
      if h.err then Returned(h.control, true) else Running(h.control)
    case Pressed(key, at) =>
      if IsQuit(key) then Returned(c, false) else
      var h := OnKey(fails, continuous, c, key, at);
      if h.err then Returned(h.control, true) else Running(h.control)
  }

  const IDLE: Control := Control(None, '\0', None, [])

  // The loop after these events; once returned it takes no more.
  function Loop(fails: nat -> bool, continuous: bool, events: seq<Event>): Looped {
    if events == [] then Running(IDLE) else
    var before := Loop(fails, continuous, events[..|events| - 1]);
    if before.Returned? then before else OnEvent(fails, continuous, before.control, events[|events| - 1])
  }

  //
  // The controller as the source has it.
  //

  class Camera {
    const fails: nat -> bool
    var log: seq<Try>

    constructor (fails: nat -> bool)
      ensures this.fails == fails && log == []
    {
      this.fails := fails;
      log := [];
    }

    method Request(command: Command) returns (err: bool)
      modifies this
      ensures err == fails(|old(log)|) && log == old(log) + [Try(command, !err)]
    {
      err := fails(|log|);
      log := log + [Try(command, !err)];
    }
  }

  class Controller {
    const camera: Camera
    const continuous: bool
    var active: Option<Axis>
    var lastDirection: char
    var timer: Option<nat>
    var timeout: Option<nat>

    ghost function State(): Control
      reads this, camera
    {
      Control(active, lastDirection, timeout, camera.log)
    }

    constructor (camera: Camera, continuous: bool)
      requires camera.log == []
      ensures this.camera == camera && this.continuous == continuous && State() == IDLE
    {
      this.camera, this.continuous := camera, continuous;
      active, lastDirection, timer, timeout := None, '\0', None, None;
    }

    method StopPtz() returns (err: bool)
      modifies `active, camera
      ensures Handled(State(), err) == StopMoving(camera.fails, old(State()))
    {
      if active.None? {
        return false;
      }
      err := camera.Request(Stop(active.value));
      if !err {
        active := None;
      }
    }

    method Key(key: char, at: nat) returns (err: bool)
      modifies this, camera
      ensures Handled(State(), err) == OnKey(camera.fails, continuous, old(State()), key, at)
    {
      if key == ' ' {
        timeout := None;
        err := StopPtz();
        return;
      }
      var axis := KeyAxis(key);
      if axis.None? {
        return false;
      }
      if active.Some? && (axis != active || key != lastDirection) {
        err := StopPtz();
        if err {
          return;
        }
      }
      if !continuous {
        err := camera.Request(Step(axis.value, KeyDirection(key)));
        return;
      }
      if active.None? {
        err := camera.Request(Start(axis.value, KeyDirection(key)));
        if err {
          return;
        }
        active, lastDirection := axis, key;
      }
      timer := Some(at + IDLE_TIMEOUT);
      timeout := timer;
      return false;
    }

    // Ends with the events, as if the context were done then.
    method ControlLoop(events: seq<Event>) returns (err: bool)
      requires State() == IDLE
      modifies this, camera
      ensures var l := Loop(camera.fails, continuous, events);
              && State() == StopMoving(camera.fails, l.control).control
              && err == (l.Returned? && l.err)
    {
      err := false;
      var running := true;
      var i := 0;
      while running && i < |events|
        invariant 0 <= i <= |events|
        invariant Loop(camera.fails, continuous, events[..i])
               == if running then Running(State()) else Returned(State(), err)
        invariant running ==> !err
        decreases |events| - i
      {
        assert events[..i + 1][..i] == events[..i];
        match events[i] {
          case End(e) =>
            running, err := false, e;
          case Clock(at) =>
            if timeout.Some? && timeout.value <= at {
              err := StopPtz();
              if err {
                running := false;
              } else {
                timeout := None;
              }
            }
          case Pressed(key, at) =>
            if IsQuit(key) {
              running := false;
            } else {
              err := Key(key, at);
              running := !err;
            }
        }
        i := i + 1;
      }
      if !running {
        ReturnedStays(camera.fails, continuous, events, i);
      }
      assert events[..|events|] == events;
      var _ := StopPtz();
    }
  }

  lemma {:induction false} ReturnedStays(fails: nat -> bool, continuous: bool, events: seq<Event>, i: nat)
    requires i <= |events| && Loop(fails, continuous, events[..i]).Returned?
    ensures Loop(fails, continuous, events) == Loop(fails, continuous, events[..i])
    decreases |events|
  {
    if i < |events| {
      assert events[..|events| - 1][..i] == events[..i];
      ReturnedStays(fails, continuous, events[..|events| - 1], i);
    } else {
      assert events[..i] == events;
    }
  }

  //
  // Safety.
  //

  // What the acknowledged commands leave the camera doing.
  datatype Motion = Still | Moving(axis: Axis, direction: Direction) | Broken

  // Only these alternate: a start while still, then a stop of the same axis.
  function MotionAfter(m: Motion, t: Try): Motion {
    if !t.acked || t.command.Step? then m
    else if m.Still? && t.command.Start? then Moving(t.command.axis, t.command.direction)
    else if m.Moving? && t.command.Stop? && t.command.axis == m.axis then Still
    else Broken
  }

  function MotionOf(log: seq<Try>): Motion {
    if log == [] then Still else MotionAfter(MotionOf(log[..|log| - 1]), log[|log| - 1])
  }

  // The controller knows what the camera does.
  ghost predicate Knows(c: Control) {
    && MotionOf(c.log) == (if c.active.None? then Still else Moving(c.active.value, KeyDirection(c.lastKey)))
    && (c.active.Some? ==> KeyAxis(c.lastKey) == c.active)
  }

  // An idle stop is pending whenever the camera moves.
  ghost predicate Guarded(c: Control) {
    c.active.Some? ==> c.timeout.Some?
  }

  lemma SendMotion(fails: nat -> bool, c: Control, command: Command)
    ensures MotionOf(Send(fails, c, command).control.log)
            == MotionAfter(MotionOf(c.log), Try(command, !Send(fails, c, command).err))
  {
    var log := Send(fails, c, command).control.log;
    assert log[..|log| - 1] == c.log;
  }

  lemma StopKnows(fails: nat -> bool, c: Control)
    requires Knows(c)
    ensures Knows(StopMoving(fails, c).control)
    ensures !StopMoving(fails, c).err ==> StopMoving(fails, c).control.active.None?
  {
    if c.active.Some? {
      SendMotion(fails, c, Stop(c.active.value));
    }
  }

  lemma DriveKnows(fails: nat -> bool, continuous: bool, c: Control, key: char, at: nat)
    requires Knows(c) && KeyAxis(key).Some?
    ensures Knows(Drive(fails, continuous, c, key, at).control)
    ensures var h := Drive(fails, continuous, c, key, at); !h.err && continuous ==> h.control.timeout.Some?
  {
    SendMotion(fails, c, Step(KeyAxis(key).value, KeyDirection(key)));
    SendMotion(fails, c, Start(KeyAxis(key).value, KeyDirection(key)));
  }

  // What holds at every loop head.
  ghost predicate IsSafe(continuous: bool, c: Control) {
    Knows(c) && Guarded(c) && (!continuous ==> c.active.None?)
  }

  lemma OnKeyKeeps(fails: nat -> bool, continuous: bool, c: Control, key: char, at: nat)
    requires IsSafe(continuous, c)
    ensures var h := OnKey(fails, continuous, c, key, at);
            && Knows(h.control)
            && (!h.err ==> Guarded(h.control))
            && (!continuous ==> h.control.active.None?)
  {
    StopKnows(fails, c);
    StopKnows(fails, c.(timeout := None));
    if KeyAxis(key).Some? {
      DriveKnows(fails, continuous, c, key, at);
      DriveKnows(fails, continuous, StopMoving(fails, c).control, key, at);
    }
  }

  lemma OnEventKeeps(fails: nat -> bool, continuous: bool, c: Control, e: Event)
    requires IsSafe(continuous, c)
    ensures var l := OnEvent(fails, continuous, c, e);
            && Knows(l.control)
            && (l.Running? ==> Guarded(l.control))
            && (!continuous ==> l.control.active.None?)
  {
    match e
    case End(_) =>
    case Clock(_) => StopKnows(fails, c);
    case Pressed(key, at) => OnKeyKeeps(fails, continuous, c, key, at);
  }

  // At every loop head, and when the loop has returned, the controller knows the camera's motion:
  // acknowledged commands alternate. At every loop head a moving camera has its idle stop pending.
  lemma {:induction false} LoopIsSafe(fails: nat -> bool, continuous: bool, events: seq<Event>)
    ensures var l := Loop(fails, continuous, events);
            && Knows(l.control) && MotionOf(l.control.log) != Broken
            && (l.Running? ==> Guarded(l.control))
            && (!continuous ==> l.control.active.None?)
    decreases |events|
  {
    if events != [] {
      var before := Loop(fails, continuous, events[..|events| - 1]);
      LoopIsSafe(fails, continuous, events[..|events| - 1]);
      if before.Running? {
        OnEventKeeps(fails, continuous, before.control, events[|events| - 1]);
      }
    }
  }

  // After the deferred stop the camera is still, unless that stop was the last command and failed.
  lemma ExitStops(fails: nat -> bool, continuous: bool, events: seq<Event>)
    ensures var end := StopMoving(fails, Loop(fails, continuous, events).control).control;
            && MotionOf(end.log) != Broken
            && (MotionOf(end.log) == Still
                || (end.log != [] && end.log[|end.log| - 1] == Try(Stop(MotionOf(end.log).axis), false)))
  {
    var c := Loop(fails, continuous, events).control;
    LoopIsSafe(fails, continuous, events);
    StopKnows(fails, c);
  }

  lemma LoopStep(fails: nat -> bool, continuous: bool, events: seq<Event>, e: Event)
    ensures var l := Loop(fails, continuous, events);
            Loop(fails, continuous, events + [e])
            == if l.Returned? then l else OnEvent(fails, continuous, l.control, e)
  {
    assert (events + [e])[..|events|] == events;
  }

  // However often the key of a running movement is repeated, nothing is sent: only the idle stop is
  // put off, to 350 ms after the last repetition.
  lemma {:induction false} RepeatsSendNothing(fails: nat -> bool, events: seq<Event>, repeats: seq<Event>)
    requires Loop(fails, true, events).Running? && Loop(fails, true, events).control.active.Some?
    requires forall e | e in repeats :: e.Pressed? && e.key == Loop(fails, true, events).control.lastKey
    ensures var c := Loop(fails, true, events).control;
            var due := if repeats == [] then c.timeout else Some(repeats[|repeats| - 1].at + 350);
            Loop(fails, true, events + repeats) == Running(c.(timeout := due))
    decreases |repeats|
  {
    if repeats == [] {
      assert events + repeats == events;
    } else {
      var before, e := repeats[..|repeats| - 1], repeats[|repeats| - 1];
      RepeatsSendNothing(fails, events, before);
      LoopIsSafe(fails, true, events);
      LoopStep(fails, true, events + before, e);
      RepeatedKey(fails, Loop(fails, true, events + before).control, e);
      LastRepeat(events, repeats);
    }
  }

  lemma RepeatedKey(fails: nat -> bool, c: Control, e: Event)
    requires c.active.Some? && KeyAxis(c.lastKey) == c.active && e.Pressed? && e.key == c.lastKey
    ensures OnEvent(fails, true, c, e) == Running(c.(timeout := Some(e.at + 350)))
  {
  }

  lemma LastRepeat(events: seq<Event>, repeats: seq<Event>)
    requires repeats != []
    ensures events + repeats == events + repeats[..|repeats| - 1] + [repeats[|repeats| - 1]]
  {
  }

  // The arrow keys as the terminal decoder names them.
  predicate IsMove(key: char, axis: Axis, direction: Direction) {
    || (key == 'A' && axis == Tilt && direction == Up)
    || (key == 'B' && axis == Tilt && direction == Down)
    || (key == 'C' && axis == Pan && direction == Right)
    || (key == 'D' && axis == Pan && direction == Left)
  }

  // In step mode every arrow key sends its one step, and the loop goes on exactly if it was acknowledged.
  lemma StepKeySteps(
    fails: nat -> bool, events: seq<Event>, key: char, axis: Axis, direction: Direction, at: nat)
    requires Loop(fails, false, events).Running? && IsMove(key, axis, direction)
    ensures var c := Loop(fails, false, events).control;
            var l := Loop(fails, false, events + [Pressed(key, at)]);
            var n := |c.log|;
            && l.control.log == c.log + [Try(Step(axis, direction), !fails(n))]
            && (if fails(n) then l == Returned(l.control, true) else l.Running?)
  {
    LoopIsSafe(fails, false, events);
    LoopStep(fails, false, events, Pressed(key, at));
    StepKey(fails, Loop(fails, false, events).control, key, axis, direction, at);
  }

  lemma StepKey(fails: nat -> bool, c: Control, key: char, axis: Axis, direction: Direction, at: nat)
    requires c.active.None? && IsMove(key, axis, direction)
    ensures var l := OnEvent(fails, false, c, Pressed(key, at));
            var n := |c.log|;
            && l.control.log == c.log + [Try(Step(axis, direction), !fails(n))]
            && (if fails(n) then l == Returned(l.control, true) else l.Running?)
  {
  }

  // In continuous mode an arrow key starts its movement if there is none, with the idle stop 350 ms later.
  lemma IdleKeyStarts(
    fails: nat -> bool, events: seq<Event>, key: char, axis: Axis, direction: Direction, at: nat)
    requires Loop(fails, true, events).Running? && Loop(fails, true, events).control.active.None?
    requires IsMove(key, axis, direction)
    ensures var c := Loop(fails, true, events).control;
            var l := Loop(fails, true, events + [Pressed(key, at)]);
            var n := |c.log|;
            && l.control.log == c.log + [Try(Start(axis, direction), !fails(n))]
            && (if fails(n) then l == Returned(l.control, true)
                else l.Running? && l.control.timeout == Some(at + 350)
                     && MotionOf(l.control.log) == Moving(axis, direction))
  {
    LoopStep(fails, true, events, Pressed(key, at));
    LoopIsSafe(fails, true, events + [Pressed(key, at)]);
    IdleKey(fails, Loop(fails, true, events).control, key, axis, direction, at);
  }

  lemma IdleKey(fails: nat -> bool, c: Control, key: char, axis: Axis, direction: Direction, at: nat)
    requires c.active.None? && IsMove(key, axis, direction)
    ensures var l := OnEvent(fails, true, c, Pressed(key, at));
            var n := |c.log|;
            && l.control.log == c.log + [Try(Start(axis, direction), !fails(n))]
            && (if fails(n) then l == Returned(l.control, true)
                else l.Running? && l.control.timeout == Some(at + 350)
                     && l.control.active == Some(axis) && KeyDirection(l.control.lastKey) == direction)
  {
  }

  // The space key stops a running movement at once, and sends nothing if there is none.
  lemma SpaceStops(fails: nat -> bool, continuous: bool, events: seq<Event>, at: nat)
    requires Loop(fails, continuous, events).Running?
    ensures var c := Loop(fails, continuous, events).control;
            var l := Loop(fails, continuous, events + [Pressed(' ', at)]);
            var n := |c.log|;
            if c.active.None? then l == Running(c.(timeout := None))
            else
              && l.control.log == c.log + [Try(Stop(c.active.value), !fails(n))]
              && (if fails(n) then l == Returned(l.control, true)
                  else l.Running? && l.control.timeout.None? && MotionOf(l.control.log) == Still)
  {
    LoopStep(fails, continuous, events, Pressed(' ', at));
    LoopIsSafe(fails, continuous, events + [Pressed(' ', at)]);
    Space(fails, continuous, Loop(fails, continuous, events).control, at);
  }

  lemma Space(fails: nat -> bool, continuous: bool, c: Control, at: nat)
    ensures var l := OnEvent(fails, continuous, c, Pressed(' ', at));
            var n := |c.log|;
            if c.active.None? then l == Running(c.(timeout := None))
            else
              && l.control.log == c.log + [Try(Stop(c.active.value), !fails(n))]
              && (if fails(n) then l == Returned(l.control, true)
                  else l.Running? && l.control.timeout.None? && l.control.active.None?)
  {
  }

  // q and Q, and every other way to end, return; any key left does nothing.
  lemma OtherEvents(fails: nat -> bool, continuous: bool, events: seq<Event>, key: char, at: nat, err: bool)
    requires Loop(fails, continuous, events).Running?
    ensures var c := Loop(fails, continuous, events).control;
            && (key == 'q' || key == 'Q' ==> Loop(fails, continuous, events + [Pressed(key, at)]) == Returned(c, false))
            && (key !in {'A', 'B', 'C', 'D', ' ', 'q', 'Q'} ==>
                  Loop(fails, continuous, events + [Pressed(key, at)]) == Running(c))
            && Loop(fails, continuous, events + [End(err)]) == Returned(c, err)
  {
    LoopStep(fails, continuous, events, Pressed(key, at));
    LoopStep(fails, continuous, events, End(err));
    OtherEvent(fails, continuous, Loop(fails, continuous, events).control, key, at);
  }

  lemma OtherEvent(fails: nat -> bool, continuous: bool, c: Control, key: char, at: nat)
    ensures key == 'q' || key == 'Q' ==> OnEvent(fails, continuous, c, Pressed(key, at)) == Returned(c, false)
    ensures key !in {'A', 'B', 'C', 'D', ' ', 'q', 'Q'} ==>
              OnEvent(fails, continuous, c, Pressed(key, at)) == Running(c)
  {
  }

  // Any other arrow key first gets the running movement stopped, and starts the new one only then.
  lemma OtherKeyStopsFirst(
    fails: nat -> bool, events: seq<Event>, key: char, axis: Axis, direction: Direction, at: nat)
    requires Loop(fails, true, events).Running? && Loop(fails, true, events).control.active.Some?
    requires IsMove(key, axis, direction) && key != Loop(fails, true, events).control.lastKey
    ensures var c := Loop(fails, true, events).control;
            var l := Loop(fails, true, events + [Pressed(key, at)]);
            var stop, start := Stop(c.active.value), Start(axis, direction);
            var n := |c.log|;
            && l.control.log == c.log + [Try(stop, !fails(n))] + (if fails(n) then [] else [Try(start, !fails(n + 1))])
            && (l.Running? <==> !fails(n) && !fails(n + 1))
  {
    LoopIsSafe(fails, true, events);
    LoopStep(fails, true, events, Pressed(key, at));
    OtherKey(fails, Loop(fails, true, events).control, key, at);
  }

  lemma OtherKey(fails: nat -> bool, c: Control, key: char, at: nat)
    requires Knows(c) && c.active.Some? && KeyAxis(key).Some? && key != c.lastKey
    ensures var h := OnKey(fails, true, c, key, at);
            var stop, start := Stop(c.active.value), Start(KeyAxis(key).value, KeyDirection(key));
            var n := |c.log|;
            && (h.err <==> fails(n) || fails(n + 1))
            && h.control.log == c.log + [Try(stop, !fails(n))] + if fails(n) then [] else [Try(start, !fails(n + 1))]
  {
  }

  // When the last movement key was handled, if no space key came after it.
  ghost function LastMove(events: seq<Event>): Option<nat> {
    if events == [] then None else
    var e := events[|events| - 1];
    if e.Pressed? && e.key == ' ' then None
    else if e.Pressed? && KeyAxis(e.key).Some? then Some(e.at)
    else LastMove(events[..|events| - 1])
  }

  // The pending idle stop of a moving camera is due 350 ms after the last movement key was handled.
  lemma {:induction false} IdleStopIsDue(fails: nat -> bool, events: seq<Event>)
    ensures var l := Loop(fails, true, events);
            l.Running? && l.control.active.Some? ==>
              && LastMove(events).Some?
              && l.control.timeout == Some(LastMove(events).value + 350)
    decreases |events|
  {
    if events != [] {
      var before := events[..|events| - 1];
      LoopIsSafe(fails, true, before);
      IdleStopIsDue(fails, before);
    }
  }

  // Before that moment the clock changes nothing; from then on it makes the loop stop the camera, or
  // end with an error if the stop fails.
  lemma IdleCameraIsStopped(fails: nat -> bool, events: seq<Event>, at: nat)
    requires Loop(fails, true, events).Running? && Loop(fails, true, events).control.active.Some?
    ensures LastMove(events).Some?
    ensures var c := Loop(fails, true, events).control;
            var l := Loop(fails, true, events + [Clock(at)]);
            var n := |c.log|;
            if at < LastMove(events).value + 350 then l == Running(c)
            else
              && l.control.log == c.log + [Try(Stop(c.active.value), !fails(n))]
              && (if fails(n) then l == Returned(l.control, true)
                  else l.Running? && l.control.active.None? && MotionOf(l.control.log) == Still)
  {
    IdleStopIsDue(fails, events);
    LoopStep(fails, true, events, Clock(at));
    LoopIsSafe(fails, true, events + [Clock(at)]);
  }
}
