/** What becomes of each packet given to the frame writer: the exact verdict, and when it is an error. */
module FrameOutcome {
  import opened Wire
  import opened H264Bits
  import opened AnnexB
  import opened FrameGate
  import opened FrameRuns
  import opened FrameGuarantees

  //
  // Errors.
  //

  // From one log to the next, writing stopped at the first failing write, and failed is whether
  // there was one.
  ghost predicate StopsAtFailure(fails: nat -> bool, before: seq<seq<Byte>>, after: seq<seq<Byte>>, failed: bool) {
    && |before| <= |after|
    && (failed <==> exists k: nat :: |before| <= k < |after| && fails(k))
    && (forall k: nat | |before| <= k < |after| && fails(k) :: k == |after| - 1)
  }

  lemma {:induction false} AttemptStops(fails: nat -> bool, log: seq<seq<Byte>>, chunks: seq<seq<Byte>>)
    ensures var r := Attempt(fails, log, chunks); StopsAtFailure(fails, log, r.0, !r.1)
    decreases |chunks|
  {
    if chunks != [] && !fails(|log|) {
      AttemptStops(fails, log + [chunks[0]], chunks[1..]);
      var r := Attempt(fails, log, chunks);
      StopsLater(fails, log, log + [chunks[0]], r.0, !r.1);
    }
  }

  // Writes that all succeeded, and then some more.
  lemma StopsLater(
    fails: nat -> bool, a: seq<seq<Byte>>, b: seq<seq<Byte>>, c: seq<seq<Byte>>, failed: bool)
    requires |a| <= |b| && (forall k: nat | |a| <= k < |b| :: !fails(k)) && StopsAtFailure(fails, b, c, failed)
    ensures StopsAtFailure(fails, a, c, failed)
  {
    if failed {
      var k: nat :| |b| <= k < |c| && fails(k);
      assert |a| <= k;
    }
  }

  lemma WriteStops<D>(fails: nat -> bool, log: seq<seq<Byte>>, g: Gate<D>)
    ensures var w := WriteFrame(fails, log, g); StopsAtFailure(fails, log, w.log, w.verdict == Failed)
  {
    var c := Collect(g.stored, g.frame);
    if IsAccepted(c) {
      var writes := SetWrites(SetsFor(c.stored, c.references));
      var sets := Attempt(fails, log, writes);
      AttemptStops(fails, log, [g.frame]);
      AttemptStops(fails, log, writes);
      AttemptStops(fails, sets.0, [g.frame]);
      if sets.1 {
        StopsLater(fails, log, sets.0, Attempt(fails, sets.0, [g.frame]).0, !Attempt(fails, sets.0, [g.frame]).1);
      }
    }
  }

  lemma StepStops<D>(d: Depacketizer<D>, fails: nat -> bool, g: Gate<D>, log: seq<seq<Byte>>, p: Packet)
    ensures var s := Step(d, fails, g, log, p); StopsAtFailure(fails, log, s.log, s.verdict == Failed)
  {
    WriteStops(fails, log, Admit(d, g, p));
  }

  // A packet brings an error exactly when one of the writes it led to failed, and that was the last.
  lemma FailuresAreReported<D>(d: Depacketizer<D>, fails: nat -> bool, ps: seq<Packet>)
    requires ps != []
    ensures var r, s := Run(d, fails, ps[..|ps| - 1]), Run(d, fails, ps);
            StopsAtFailure(fails, r.log, s.log, s.verdict == Failed)
  {
    var r := Run(d, fails, ps[..|ps| - 1]);
    StepStops(d, fails, r.gate, r.log, ps[|ps| - 1]);
  }

  //
  // Verdicts.
  //

  // Both sets that a slice with this reference needs have been received.
  ghost predicate IsReferable(received: seq<seq<Byte>>, reference: nat) {
    exists pps: seq<Byte> ::
      && IsLatestPps(received, reference, pps)
      && exists sps :: sps in received && IsSpsFor(sps, PpsIdsOf(pps).value.1)
  }

  // Every unit can be read, and whatever its slices refer to has been received.
  ghost predicate IsAcceptable(nalus: seq<seq<Byte>>, received: seq<seq<Byte>>) {
    && (forall n | n in nalus :: Parses(n))
    && (forall reference | reference in SliceReferences(nalus) :: IsReferable(received, reference))
  }

  lemma LatestPpsIsOne(units: seq<seq<Byte>>, id: nat, a: seq<Byte>, b: seq<Byte>)
    requires IsLatestPps(units, id, a) && IsLatestPps(units, id, b)
    ensures a == b
  {
    var j: nat :| j < |units| && units[j] == a && forall i | j < i < |units| :: !IsPpsFor(units[i], id);
    var k: nat :| k < |units| && units[k] == b && forall i | k < i < |units| :: !IsPpsFor(units[i], id);
  }

  lemma KnownExactly(stored: Stored, received: seq<seq<Byte>>, reference: nat)
    requires HoldsLatest(stored, received)
    ensures IsKnown(stored, reference) <==> IsReferable(received, reference)
  {
    assert HoldsLatestPps(stored.pps, received, reference);
    if IsKnown(stored, reference) {
      KnownSetFits(stored, reference, received);
      FittingIsReferable(SetFor(stored, reference), reference, received);
    }
    if IsReferable(received, reference) {
      var pps: seq<Byte> :|
        && IsLatestPps(received, reference, pps)
        && exists sps :: sps in received && IsSpsFor(sps, PpsIdsOf(pps).value.1);
      assert pps in received && IsPpsFor(pps, reference);
      LatestPpsIsOne(received, reference, pps, stored.pps[reference].data);
      assert HoldsLatestSps(stored.sps, received, stored.pps[reference].spsId);
    }
  }

  lemma FittingIsReferable(s: ParameterSet, reference: nat, received: seq<seq<Byte>>)
    requires Fits(s, reference, received)
    ensures IsReferable(received, reference)
  {
    assert s.sps in received;
  }

  lemma AcceptedExactly(stored: Stored, frame: seq<Byte>, received: seq<seq<Byte>>)
    requires HoldsLatest(Collect(stored, frame).stored, received)
    ensures IsAccepted(Collect(stored, frame)) <==> IsAcceptable(Split(frame), received)
  {
    var c := Collect(stored, frame);
    CollectMeaning(stored, [], false, Split(frame));
    if c.valid {
      assert c.references == SliceReferences(Split(frame));
      forall reference | reference in c.references
        ensures IsKnown(c.stored, reference) <==> IsReferable(received, reference)
      {
        KnownExactly(c.stored, received, reference);
      }
    }
  }

  // What p brings behind the packets before it, in terms of the stream alone but for readiness.
  ghost predicate IsVerdict<D>(
    d: Depacketizer<D>, before: seq<Packet>, p: Packet, ready: bool, failed: bool, verdict: Verdict)
  {
    var qs := before + [p];
    var intact := IsIntact(d, Unit(qs));
    var nalus := Split(Reassembled(d, Unit(qs)));
    var acceptable := IsAcceptable(nalus, Received(d, qs));
    verdict ==
    if !p.marker then Pending
    else if !intact then Damaged
    else if !acceptable then Rejected
    else if !HasIdr(nalus) && !ready then Withheld
    else if failed then Failed
    else Sent(HasIdr(nalus))
  }

  lemma StepVerdict<D>(d: Depacketizer<D>, before: seq<Packet>, p: Packet, r: Stepped<D>, s: Stepped<D>)
    requires StepMeaning(d, before, p, r, s) && HoldsLatest(s.gate.stored, Received(d, before + [p]))
    ensures IsVerdict(d, before, p, r.gate.ready && !IsBreak(before, p), s.verdict == Failed, s.verdict)
  {
    var qs := before + [p];
    if p.marker && IsIntact(d, Unit(qs)) {
      var frame := Reassembled(d, Unit(qs));
      AcceptedExactly(r.gate.stored, frame, Received(d, qs));
      CollectMeaning(r.gate.stored, [], false, Split(frame));
    }
  }

  // The verdict on every packet with a payload. In particular no intact unit is rejected whose units
  // can all be read and whose slices refer to parameter sets that have been received.
  lemma VerdictExactly<D>(d: Depacketizer<D>, fails: nat -> bool, before: seq<Packet>, p: Packet)
    requires NoneEmpty(before) && p.payload != []
    ensures var r, s := Run(d, fails, before), Run(d, fails, before + [p]);
            && IsVerdict(d, before, p, r.gate.ready && !IsBreak(before, p), s.verdict == Failed, s.verdict)
            && StopsAtFailure(fails, r.log, s.log, s.verdict == Failed)
  {
    VerdictOfRun(d, fails, before, p);
    LastStepStops(d, fails, before, p);
  }

  lemma VerdictOfRun<D>(d: Depacketizer<D>, fails: nat -> bool, before: seq<Packet>, p: Packet)
    requires NoneEmpty(before) && p.payload != []
    ensures var r, s := Run(d, fails, before), Run(d, fails, before + [p]);
            IsVerdict(d, before, p, r.gate.ready && !IsBreak(before, p), s.verdict == Failed, s.verdict)
  {
    UnitsDecideOutput(d, fails, before, p);
    RunHoldsLatest(d, fails, before + [p]);
    StepVerdict(d, before, p, Run(d, fails, before), Run(d, fails, before + [p]));
  }

  lemma LastStepStops<D>(d: Depacketizer<D>, fails: nat -> bool, before: seq<Packet>, p: Packet)
    ensures var r, s := Run(d, fails, before), Run(d, fails, before + [p]);
            StopsAtFailure(fails, r.log, s.log, s.verdict == Failed)
  {
    var r := Run(d, fails, before);
    RunStep(d, fails, before, p);
    StepStops(d, fails, r.gate, r.log, p);
  }

  // A failed frame write leaves the writer ready behind its parameter sets, a failed set write as it was.
  lemma ReadyAfterFailure<D>(d: Depacketizer<D>, fails: nat -> bool, before: seq<Packet>, p: Packet)
    requires NoneEmpty(before) && p.payload != []
    ensures var r, s := Run(d, fails, before), Run(d, fails, before + [p]);
            var frame := Reassembled(d, Unit(before + [p]));
            s.verdict == Failed ==>
              var c := Collect(r.gate.stored, frame);
              && IsAccepted(c)
              && s.gate.ready == ((r.gate.ready && !IsBreak(before, p)) ||
                                  s.log == r.log + Handed(c, frame, true))
  {
    var r := Run(d, fails, before);
    RunTracks(d, fails, before);
    AdmitTracks(d, before, p, r.gate);
    AdmitReady(d, before, p, r.gate);
    RunStep(d, fails, before, p);
    WriteLeavesReady(fails, r.log, Admit(d, r.gate, p));
  }

  lemma {:induction false} FailedAttempt(fails: nat -> bool, log: seq<seq<Byte>>, chunks: seq<seq<Byte>>)
    ensures var r := Attempt(fails, log, chunks); |r.0| <= |log| + |chunks|
    ensures chunks != [] ==> |Attempt(fails, log, chunks).0| > |log|
    decreases |chunks|
  {
    if chunks != [] && !fails(|log|) {
      FailedAttempt(fails, log + [chunks[0]], chunks[1..]);
    }
  }

  lemma WriteLeavesReady<D>(fails: nat -> bool, log: seq<seq<Byte>>, g: Gate<D>)
    ensures var w := WriteFrame(fails, log, g);
            var c := Collect(g.stored, g.frame);
            w.verdict == Failed ==>
              IsAccepted(c) && w.gate.ready == (g.ready || w.log == log + Handed(c, g.frame, true))
  {
    var c := Collect(g.stored, g.frame);
    if IsAccepted(c) && c.hasIdr {
      var writes := SetWrites(SetsFor(c.stored, c.references));
      var sets := Attempt(fails, log, writes);
      FailedAttempt(fails, log, writes);
      FailedAttempt(fails, sets.0, [g.frame]);
      assert log + writes + [g.frame] == log + (writes + [g.frame]);
    }
  }
}
