/**
 The bytes the frame writer puts out, read back as an Annex B stream, for runs in which the
 depacketizer returned NAL units behind start codes for the packets of every intact access unit.
 */
module OutputStream {
  import opened Wire
  import opened AnnexB
  import opened FrameGate
  import opened FrameRuns
  import opened FrameGuarantees

  //
  // Joined units.
  //

  ghost predicate AreUnits(nalus: seq<seq<Byte>>) {
    forall n | n in nalus :: n != [] && !Contains(n, START_CODE)
  }

  ghost predicate IsJoined(bytes: seq<Byte>) {
    exists nalus :: AreUnits(nalus) && bytes == Join(nalus)
  }

  // The units of a frame.
  function UnitsOf(bytes: seq<Byte>): seq<seq<Byte>> {
    NonEmpty(Split(bytes))
  }

  lemma JoinedUnits(bytes: seq<Byte>, nalus: seq<seq<Byte>>)
    requires AreUnits(nalus) && bytes == Join(nalus)
    ensures UnitsOf(bytes) == nalus
  {
    SplitUndoesJoinExactly(nalus);
  }

  lemma {:induction false} JoinAppend(a: seq<seq<Byte>>, b: seq<seq<Byte>>)
    ensures Join(a + b) == Join(a) + Join(b)
  {
    if a == [] {
      assert a + b == b;
    } else {
      JoinAppend(a[1..], b);
      assert (a + b)[0] == a[0] && (a + b)[1..] == a[1..] + b;
      ConcatAssociates(START_CODE + a[0], Join(a[1..]), Join(b));
    }
  }

  lemma AppendedIsJoined(x: seq<Byte>, y: seq<Byte>)
    requires IsJoined(x) && IsJoined(y)
    ensures IsJoined(x + y)
  {
    var a :| AreUnits(a) && x == Join(a);
    var b :| AreUnits(b) && y == Join(b);
    JoinAppend(a, b);
    assert AreUnits(a + b);
  }

  //
  // Frames.
  //

  // For each packet of the unit the depacketizer returned such units, or nothing.
  ghost predicate ReturnedUnits<D>(d: Depacketizer<D>, us: seq<Packet>) {
    forall k: nat | 1 <= k <= |us| :: IsJoined(BytesOf(LastResult(d, us[..k])))
  }

  ghost predicate EndsIntact<D>(d: Depacketizer<D>, qs: seq<Packet>) {
    qs != [] && qs[|qs| - 1].marker && IsIntact(d, Unit(qs))
  }

  // So it did for every intact access unit that ended in the stream.
  ghost predicate StreamsUnits<D>(d: Depacketizer<D>, qs: seq<Packet>) {
    forall n: nat | n <= |qs| && EndsIntact(d, qs[..n]) :: ReturnedUnits(d, Unit(qs[..n]))
  }

  lemma {:induction false} FrameIsJoined<D>(d: Depacketizer<D>, us: seq<Packet>)
    requires ReturnedUnits(d, us)
    ensures IsJoined(Reassembled(d, us))
    decreases |us|
  {
    if us == [] {
      assert AreUnits([]) && Reassembled(d, us) == Join([]);
    } else {
      var before := us[..|us| - 1];
      forall k: nat | 1 <= k <= |before|
        ensures IsJoined(BytesOf(LastResult(d, before[..k])))
      {
        assert before[..k] == us[..k];
      }
      FrameIsJoined(d, before);
      assert us[..|us|] == us;
      AppendedIsJoined(Reassembled(d, before), BytesOf(LastResult(d, us)));
    }
  }

  lemma StreamPrefix<D>(d: Depacketizer<D>, before: seq<Packet>, p: Packet)
    requires StreamsUnits(d, before + [p])
    ensures StreamsUnits(d, before)
    ensures EndsIntact(d, before + [p]) ==> ReturnedUnits(d, Unit(before + [p]))
  {
    var qs := before + [p];
    forall n: nat | n <= |before| && EndsIntact(d, before[..n])
      ensures ReturnedUnits(d, Unit(before[..n]))
    {
      assert before[..n] == qs[..n];
    }
    assert qs[..|qs|] == qs;
  }

  //
  // Parameter sets.
  //

  lemma {:induction false} ReadableAreIn(nalus: seq<seq<Byte>>)
    ensures forall n | n in Readable(nalus) :: n in nalus
  {
    if nalus != [] && Parses(nalus[0]) {
      ReadableAreIn(nalus[1..]);
    }
  }

  lemma {:induction false} ReceivedAreClean<D>(d: Depacketizer<D>, qs: seq<Packet>)
    ensures forall n | n in Received(d, qs) :: !Contains(n, START_CODE)
    decreases |qs|
  {
    if qs != [] {
      ReceivedAreClean(d, qs[..|qs| - 1]);
      var nalus := Split(Reassembled(d, Unit(qs)));
      ReadableAreIn(nalus);
      PiecesAreClean(Reassembled(d, Unit(qs)));
    }
  }

  function SetUnits(sets: seq<ParameterSet>): seq<seq<Byte>> {
    if sets == [] then [] else [sets[0].sps, sets[0].pps] + SetUnits(sets[1..])
  }

  lemma FittingSetIsUnits(s: ParameterSet, reference: nat, received: seq<seq<Byte>>)
    requires Fits(s, reference, received) && forall n | n in received :: !Contains(n, START_CODE)
    ensures AreUnits([s.sps, s.pps])
  {
    assert s.sps in received && s.pps in received;
  }

  lemma {:induction false} FittingSetsAreUnits(sets: seq<ParameterSet>)
    requires forall s | s in sets :: AreUnits([s.sps, s.pps])
    ensures AreUnits(SetUnits(sets))
  {
    if sets != [] {
      FittingSetsAreUnits(sets[1..]);
      var first := [sets[0].sps, sets[0].pps];
      assert AreUnits(first);
    }
  }

  //
  // The output.
  //

  function Bytes(chunks: seq<seq<Byte>>): seq<Byte> {
    if chunks == [] then [] else chunks[0] + Bytes(chunks[1..])
  }

  lemma {:induction false} BytesAppend(a: seq<seq<Byte>>, b: seq<seq<Byte>>)
    ensures Bytes(a + b) == Bytes(a) + Bytes(b)
  {
    if a == [] {
      assert a + b == b;
    } else {
      BytesAppend(a[1..], b);
      assert (a + b)[0] == a[0] && (a + b)[1..] == a[1..] + b;
      ConcatAssociates(a[0], Bytes(a[1..]), Bytes(b));
    }
  }

  lemma BytesOfUnit(nalu: seq<Byte>)
    ensures Bytes([START_CODE, nalu]) == Join([nalu])
  {
    BytesOfOne(nalu);
    assert [START_CODE, nalu][1..] == [nalu];
    assert [nalu][1..] == [] && START_CODE + nalu + Join([]) == START_CODE + nalu;
  }

  lemma BytesOfOne(chunk: seq<Byte>)
    ensures Bytes([chunk]) == chunk
  {
    assert [chunk][1..] == [] && chunk + Bytes([]) == chunk;
  }

  lemma BytesOfSet(s: ParameterSet)
    ensures Bytes([START_CODE, s.sps, START_CODE, s.pps]) == Join([s.sps, s.pps])
  {
    BytesOfUnit(s.sps);
    BytesOfUnit(s.pps);
    BytesAppend([START_CODE, s.sps], [START_CODE, s.pps]);
    JoinAppend([s.sps], [s.pps]);
    assert [START_CODE, s.sps] + [START_CODE, s.pps] == [START_CODE, s.sps, START_CODE, s.pps];
    assert [s.sps] + [s.pps] == [s.sps, s.pps];
  }

  lemma {:induction false} BytesOfSets(sets: seq<ParameterSet>)
    ensures Bytes(SetWrites(sets)) == Join(SetUnits(sets))
  {
    if sets != [] {
      var s := sets[0];
      BytesOfSets(sets[1..]);
      BytesOfSet(s);
      BytesAppend([START_CODE, s.sps, START_CODE, s.pps], SetWrites(sets[1..]));
      JoinAppend([s.sps, s.pps], SetUnits(sets[1..]));
    }
  }

  // What an accepted unit sends: its sets if it has an IDR slice, then its own units.
  ghost function Sending(c: Collected, frame: seq<Byte>): seq<seq<Byte>> {
    (if IsAccepted(c) && c.hasIdr then SetUnits(SetsFor(c.stored, c.references)) else []) + UnitsOf(frame)
  }

  // What a run has sent, sent frame by sent frame.
  ghost function SentUnits<D>(d: Depacketizer<D>, fails: nat -> bool, qs: seq<Packet>): seq<seq<Byte>> {
    if qs == [] then [] else
    var r := Run(d, fails, qs[..|qs| - 1]);
    var frame := Reassembled(d, Unit(qs));
    SentUnits(d, fails, qs[..|qs| - 1]) +
    if Run(d, fails, qs).verdict.Sent? then Sending(Collect(r.gate.stored, frame), frame) else []
  }

  lemma SetsAreUnits(c: Collected, received: seq<seq<Byte>>)
    requires IsAccepted(c) && HoldsLatest(c.stored, received)
    requires forall n | n in received :: !Contains(n, START_CODE)
    ensures AreUnits(SetUnits(SetsFor(c.stored, c.references)))
  {
    var sets := SetsFor(c.stored, c.references);
    forall s | s in sets
      ensures AreUnits([s.sps, s.pps])
    {
      var i :| 0 <= i < |sets| && s == sets[i];
      KnownSetFits(c.stored, c.references[i], received);
      FittingSetIsUnits(s, c.references[i], received);
    }
    FittingSetsAreUnits(sets);
  }

  lemma BytesBehindSets(sets: seq<ParameterSet>, nalus: seq<seq<Byte>>)
    ensures Bytes(SetWrites(sets) + [Join(nalus)]) == Join(SetUnits(sets) + nalus)
  {
    BytesOfSets(sets);
    BytesOfOne(Join(nalus));
    BytesAppend(SetWrites(sets), [Join(nalus)]);
    JoinAppend(SetUnits(sets), nalus);
  }

  lemma SendingIsUnits(c: Collected, frame: seq<Byte>, received: seq<seq<Byte>>)
    requires IsJoined(frame) && IsAccepted(c) && HoldsLatest(c.stored, received)
    requires forall n | n in received :: !Contains(n, START_CODE)
    ensures AreUnits(Sending(c, frame)) && Bytes(Handed(c, frame, true)) == Join(Sending(c, frame))
  {
    var nalus :| AreUnits(nalus) && frame == Join(nalus);
    JoinedUnits(frame, nalus);
    if c.hasIdr {
      SetsAreUnits(c, received);
      BytesBehindSets(SetsFor(c.stored, c.references), nalus);
    } else {
      BytesOfOne(frame);
      assert [] + nalus == nalus;
    }
  }

  lemma QuietStep<D>(d: Depacketizer<D>, before: seq<Packet>, p: Packet, r: Stepped<D>, s: Stepped<D>)
    requires StepMeaning(d, before, p, r, s) && !s.verdict.Sent? && s.verdict != Failed
    ensures s.log == r.log
  {
  }

  lemma {:induction false} LogIsJoined<D>(d: Depacketizer<D>, fails: nat -> bool, qs: seq<Packet>)
    requires StreamsUnits(d, qs) && NoneEmpty(qs) && NoFailure(d, fails, qs)
    ensures AreUnits(SentUnits(d, fails, qs))
    ensures Bytes(Run(d, fails, qs).log) == Join(SentUnits(d, fails, qs))
    decreases |qs|
  {
    if qs != [] {
      var before, p := qs[..|qs| - 1], qs[|qs| - 1];
      assert before + [p] == qs;
      var r, s := Run(d, fails, before), Run(d, fails, qs);
      StreamPrefix(d, before, p);
      LogIsJoined(d, fails, before);
      if s.verdict.Sent? {
        SentStep(d, fails, before, p);
      } else {
        UnitsDecideOutput(d, fails, before, p);
        QuietStep(d, before, p, r, s);
        assert SentUnits(d, fails, before) + [] == SentUnits(d, fails, before);
      }
    }
  }

  lemma SentStep<D>(d: Depacketizer<D>, fails: nat -> bool, before: seq<Packet>, p: Packet)
    requires StreamsUnits(d, before + [p]) && NoneEmpty(before) && p.payload != []
    requires Run(d, fails, before + [p]).verdict.Sent?
    requires AreUnits(SentUnits(d, fails, before))
    requires Bytes(Run(d, fails, before).log) == Join(SentUnits(d, fails, before))
    ensures AreUnits(SentUnits(d, fails, before + [p]))
    ensures Bytes(Run(d, fails, before + [p]).log) == Join(SentUnits(d, fails, before + [p]))
  {
    var qs := before + [p];
    assert qs[..|qs| - 1] == before;
    var r, s := Run(d, fails, before), Run(d, fails, qs);
    OutputMeansIntact(d, fails, before, p, r, s);
    StreamPrefix(d, before, p);
    FrameIsJoined(d, Unit(qs));
    RunHoldsLatest(d, fails, qs);
    ReceivedAreClean(d, qs);
    LogGrowsByUnits(r, s, Reassembled(d, Unit(qs)), Received(d, qs), SentUnits(d, fails, before));
  }

  lemma LogGrowsByUnits<D>(
    r: Stepped<D>, s: Stepped<D>, frame: seq<Byte>, received: seq<seq<Byte>>, sent: seq<seq<Byte>>)
    requires HandsOver(r, s, frame) && s.verdict.Sent? && IsJoined(frame) && HoldsLatest(s.gate.stored, received)
    requires forall n | n in received :: !Contains(n, START_CODE)
    requires AreUnits(sent) && Bytes(r.log) == Join(sent)
    ensures var more := Sending(Collect(r.gate.stored, frame), frame);
            AreUnits(sent + more) && Bytes(s.log) == Join(sent + more)
  {
    var c := Collect(r.gate.stored, frame);
    SendingIsUnits(c, frame, received);
    BytesAppend(r.log, Handed(c, frame, true));
    JoinAppend(sent, Sending(c, frame));
  }

  // Split at its start codes, the output of a run without write errors gives back exactly the
  // parameter sets and NAL units that were sent, in order.
  lemma OutputSplitsBack<D>(d: Depacketizer<D>, fails: nat -> bool, ps: seq<Packet>)
    requires StreamsUnits(d, Kept(ps)) && NoFailure(d, fails, ps)
    ensures UnitsOf(Bytes(Run(d, fails, ps).log)) == SentUnits(d, fails, Kept(ps))
  {
    KeptHasNoneEmpty(ps);
    NoFailureKept(d, fails, ps);
    EmptyPayloadsAreInvisible(d, fails, ps);
    LogIsJoined(d, fails, Kept(ps));
    JoinedUnits(Bytes(Run(d, fails, ps).log), SentUnits(d, fails, Kept(ps)));
  }
}
