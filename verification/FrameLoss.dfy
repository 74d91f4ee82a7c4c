/**
 The frame writer behind a lossy network: which of the frames it writes are whole access units as
 they were sent.
 */
module FrameLoss {
  import opened Wire
  import opened FrameGate
  import opened FrameRuns
  import opened FrameGuarantees

  const SEQUENCE_NUMBERS: nat := 0x1_0000

  // What a sender numbers: consecutive sequence numbers modulo 2^16.
  ghost predicate IsSent(sent: seq<Packet>) {
    forall k: nat | k + 1 < |sent| :: sent[k + 1].sequence == NextSequence(sent[k].sequence)
  }

  // The packets at these positions arrived, in order, and fewer than 2^16 were lost in a row.
  ghost predicate Arrived(sent: seq<Packet>, at: seq<nat>, qs: seq<Packet>) {
    && |at| == |qs|
    && (forall k: nat | k < |qs| :: at[k] < |sent| && qs[k] == sent[at[k]])
    && (forall k: nat | k + 1 < |qs| :: at[k] < at[k + 1] <= at[k] + SEQUENCE_NUMBERS)
  }

  lemma {:induction false} NumberOf(sent: seq<Packet>, i: nat, n: nat)
    requires IsSent(sent) && i + n < |sent|
    ensures sent[i + n].sequence == (sent[i].sequence + n) % SEQUENCE_NUMBERS
  {
    if n > 0 {
      NumberOf(sent, i, n - 1);
      assert sent[i + (n - 1) + 1].sequence == NextSequence(sent[i + (n - 1)].sequence);
    }
  }

  // Within 2^16 packets only the next one carries the next number.
  lemma OnlyTheNextFollows(sent: seq<Packet>, i: nat, j: nat)
    requires IsSent(sent) && i < j <= i + SEQUENCE_NUMBERS && j < |sent|
    ensures sent[j].sequence == NextSequence(sent[i].sequence) <==> j == i + 1
  {
    NumberOf(sent, i, j - i);
  }

  //
  // The packets of an access unit are a stretch of what was sent.
  //

  // One timestamp, consecutive numbers and no marker inside, from a unit start to the end.
  ghost predicate IsUnitFrom(qs: seq<Packet>, i: nat) {
    && i < |qs| && UnitStartsAt(qs, i)
    && (forall k | i <= k < |qs| :: qs[k].timestamp == qs[i].timestamp)
    && (forall k | i <= k < |qs| - 1 :: !qs[k].marker)
    && (forall k | i <= k < |qs| - 1 :: qs[k + 1].sequence == NextSequence(qs[k].sequence))
  }

  lemma {:induction false} PositionInUnit(sent: seq<Packet>, at: seq<nat>, qs: seq<Packet>, i: nat, k: nat)
    requires IsSent(sent) && Arrived(sent, at, qs) && IsUnitFrom(qs, i) && i <= k < |qs|
    ensures at[k] == at[i] + (k - i)
    decreases k
  {
    if k > i {
      var j := k - 1;
      PositionInUnit(sent, at, qs, i, j);
      assert at[j] < at[j + 1] <= at[j] + SEQUENCE_NUMBERS && qs[j + 1].sequence == NextSequence(qs[j].sequence);
      OnlyTheNextFollows(sent, at[j], at[j + 1]);
    }
  }

  // The packets sent from position first to position last.
  function Stretch(sent: seq<Packet>, first: nat, last: nat): seq<Packet>
    requires first <= last < |sent|
  {
    sent[first..last + 1]
  }

  lemma UnitAsSent(sent: seq<Packet>, at: seq<nat>, qs: seq<Packet>, i: nat)
    requires IsSent(sent) && Arrived(sent, at, qs) && IsUnitFrom(qs, i)
    ensures at[i] <= at[|qs| - 1] < |sent| && qs[i..] == Stretch(sent, at[i], at[|qs| - 1])
  {
    PositionInUnit(sent, at, qs, i, |qs| - 1);
    var part := Stretch(sent, at[i], at[|qs| - 1]);
    forall k: nat | k < |part|
      ensures part[k] == qs[i..][k]
    {
      PositionInUnit(sent, at, qs, i, i + k);
    }
  }

  // A stretch inside one unit.
  ghost predicate IsOneUnit(sent: seq<Packet>, first: nat, last: nat) {
    && first <= last < |sent|
    && (forall k | first <= k <= last :: sent[k].timestamp == sent[first].timestamp)
    && (forall k | first <= k < last :: !sent[k].marker)
  }

  lemma UnitIsOneUnit(sent: seq<Packet>, qs: seq<Packet>, i: nat, first: nat, last: nat)
    requires IsUnitFrom(qs, i) && first <= last < |sent| && qs[i..] == Stretch(sent, first, last)
    ensures IsOneUnit(sent, first, last)
  {
    var part := Stretch(sent, first, last);
    assert |part| == |qs| - i;
    forall k | first <= k <= last
      ensures sent[k] == qs[i + (k - first)]
    {
      assert sent[k] == part[k - first] == qs[i..][k - first];
    }
  }

  // Where the unit that ends with the last of these packets started.
  ghost function FirstSent(sent: seq<Packet>, last: nat): nat
    requires last < |sent|
  {
    UnitStart(sent[..last + 1])
  }

  lemma SentUnit(sent: seq<Packet>, last: nat)
    requires last < |sent|
    ensures var b := FirstSent(sent, last);
            && UnitStartsAt(sent, b) && IsOneUnit(sent, b, last)
            && Unit(sent[..last + 1]) == Stretch(sent, b, last)
  {
    var upTo := sent[..last + 1];
    UnitMeaning(upTo);
    var b := UnitStart(upTo);
    assert upTo[b..] == Stretch(sent, b, last);
    forall k | 0 <= k <= last
      ensures upTo[k] == sent[k]
    {
    }
  }

  lemma NoStartInside(sent: seq<Packet>, first: nat, last: nat, k: nat)
    requires IsOneUnit(sent, first, last) && first < k <= last
    ensures !UnitStartsAt(sent, k)
  {
  }

  // A stretch inside one unit starts no earlier than the unit it ends in.
  lemma StretchInUnit(sent: seq<Packet>, first: nat, last: nat)
    requires IsOneUnit(sent, first, last)
    ensures FirstSent(sent, last) <= first
  {
    forall k: nat | first < k <= last
      ensures !UnitStartsAt(sent, k)
    {
      NoStartInside(sent, first, last, k);
    }
    SentUnit(sent, last);
  }

  //
  // Whole units.
  //

  // The positions lost directly before the i-th packet received.
  ghost predicate IsLostBefore(at: seq<nat>, i: nat, k: nat)
    requires i < |at|
  {
    k < at[i] && (i > 0 ==> at[i - 1] < k)
  }

  // The received unit is the whole unit that was sent.
  ghost predicate IsWhole(sent: seq<Packet>, at: seq<nat>, qs: seq<Packet>)
    requires |at| == |qs| && qs != [] && at[|qs| - 1] < |sent|
  {
    Unit(qs) == Unit(sent[..at[|qs| - 1] + 1])
  }

  // What was lost directly before the received unit belongs to earlier units.
  ghost predicate LostIsEarlier(sent: seq<Packet>, at: seq<nat>, qs: seq<Packet>)
    requires |at| == |qs| && qs != [] && at[|qs| - 1] < |sent|
  {
    forall k: nat | IsLostBefore(at, UnitStart(qs), k) :: k < FirstSent(sent, at[|qs| - 1])
  }

  // The last packet received before the unit does not belong to it.
  lemma EarlierIsOutside(sent: seq<Packet>, at: seq<nat>, qs: seq<Packet>, i: nat, b: nat, last: nat)
    requires Arrived(sent, at, qs) && 0 < i < |qs| && UnitStartsAt(qs, i)
    requires IsOneUnit(sent, b, last) && at[i] <= last
    ensures at[i - 1] < b
  {
    assert at[i - 1] < at[i - 1 + 1];
  }

  lemma StretchesDiffer(sent: seq<Packet>, b: nat, first: nat, last: nat)
    requires b <= first <= last < |sent|
    ensures Stretch(sent, b, last) == Stretch(sent, first, last) <==> b == first
  {
    assert |Stretch(sent, b, last)| - |Stretch(sent, first, last)| == first - b;
  }

  lemma WholeExactly(sent: seq<Packet>, at: seq<nat>, qs: seq<Packet>)
    requires IsSent(sent) && Arrived(sent, at, qs) && qs != [] && IsUnitFrom(qs, UnitStart(qs))
    ensures IsWhole(sent, at, qs) <==> LostIsEarlier(sent, at, qs)
    ensures IsWhole(sent, at, qs) <==> FirstSent(sent, at[|qs| - 1]) == at[UnitStart(qs)]
  {
    var i := UnitStart(qs);
    var first, last := at[i], at[|qs| - 1];
    UnitAsSent(sent, at, qs, i);
    UnitIsOneUnit(sent, qs, i, first, last);
    StretchInUnit(sent, first, last);
    SentUnit(sent, last);
    var b := FirstSent(sent, last);
    UnitMeaning(qs);
    StretchesDiffer(sent, b, first, last);
    LostExactly(sent, at, qs, i, b, last);
  }

  lemma LostExactly(sent: seq<Packet>, at: seq<nat>, qs: seq<Packet>, i: nat, b: nat, last: nat)
    requires Arrived(sent, at, qs) && i < |qs| && UnitStartsAt(qs, i)
    requires IsOneUnit(sent, b, last) && b <= at[i] <= last
    ensures (forall k: nat | IsLostBefore(at, i, k) :: k < b) <==> b == at[i]
  {
    if i > 0 {
      EarlierIsOutside(sent, at, qs, i, b, last);
    }
    if b < at[i] {
      assert IsLostBefore(at, i, at[i] - 1);
    }
  }

  //
  // The frames that are written.
  //

  lemma AccessUnitIsUnit<D>(d: Depacketizer<D>, qs: seq<Packet>, frame: seq<Byte>)
    requires IsFrameOf(d, qs, frame)
    ensures IsUnitFrom(qs, UnitStart(qs)) && d.head(qs[UnitStart(qs)].payload)
  {
  }

  lemma SentIsUnit<D>(d: Depacketizer<D>, fails: nat -> bool, ps: seq<Packet>)
    requires ps != [] && Run(d, fails, ps).verdict.Sent?
    ensures var qs := Kept(ps);
            qs != [] && IsUnitFrom(qs, UnitStart(qs)) && d.head(qs[UnitStart(qs)].payload)
  {
    OutputIsOneFrame(d, fails, ps, Run(d, fails, ps[..|ps| - 1]), Run(d, fails, ps));
    AccessUnitIsUnit(d, Kept(ps), Reassembled(d, Unit(Kept(ps))));
  }

  // Any written frame is made of the whole access unit that was sent exactly when the packets lost
  // directly before the first one that arrived of it all belong to earlier units.
  lemma WrittenWholeExactly<D>(
    d: Depacketizer<D>, fails: nat -> bool, ps: seq<Packet>, sent: seq<Packet>, at: seq<nat>)
    requires ps != [] && IsSent(sent) && Arrived(sent, at, Kept(ps))
    ensures Run(d, fails, ps).verdict.Sent? ==>
              Kept(ps) != [] && (IsWhole(sent, at, Kept(ps)) <==> LostIsEarlier(sent, at, Kept(ps)))
  {
    if Run(d, fails, ps).verdict.Sent? {
      SentIsUnit(d, fails, ps);
      WholeExactly(sent, at, Kept(ps));
    }
  }

  // The writer is ready for the k-th packet, and that packet breaks nothing.
  ghost predicate IsReadyAt<D>(d: Depacketizer<D>, fails: nat -> bool, qs: seq<Packet>, k: nat)
    requires k < |qs|
  {
    Run(d, fails, qs[..k]).gate.ready && !IsBreak(qs[..k], qs[k])
  }

  lemma ReadyBefore<D>(d: Depacketizer<D>, fails: nat -> bool, qs: seq<Packet>, k: nat)
    requires NoneEmpty(qs) && k + 1 < |qs| && !qs[k].marker && IsReadyAt(d, fails, qs, k + 1)
    ensures IsReadyAt(d, fails, qs, k)
  {
    UnitsDecideOutput(d, fails, qs[..k], qs[k]);
    assert qs[..k] + [qs[k]] == qs[..k + 1];
    PendingIsReady(d, qs[..k], qs[k], Run(d, fails, qs[..k]), Run(d, fails, qs[..k + 1]));
  }

  lemma {:induction false} TrueBackwards(held: seq<bool>, i: nat, k: nat)
    requires i <= k < |held| && held[k]
    requires forall j: nat | i <= j && j + 1 < |held| && held[j + 1] :: held[j]
    ensures held[i]
    decreases k
  {
    if i < k {
      var j := k - 1;
      assert held[j + 1];
      TrueBackwards(held, i, j);
    }
  }

  // Readiness at the end of a unit was there all along, from its first packet on.
  lemma ReadyThroughout<D>(d: Depacketizer<D>, fails: nat -> bool, qs: seq<Packet>, i: nat)
    requires NoneEmpty(qs) && i < |qs| && (forall k | i <= k < |qs| - 1 :: !qs[k].marker)
    requires IsReadyAt(d, fails, qs, |qs| - 1)
    ensures IsReadyAt(d, fails, qs, i)
  {
    var held := seq(|qs|, k requires 0 <= k < |qs| => IsReadyAt(d, fails, qs, k));
    forall j: nat | i <= j && j + 1 < |held| && held[j + 1]
      ensures held[j]
    {
      ReadyBefore(d, fails, qs, j);
    }
    TrueBackwards(held, i, |qs| - 1);
  }

  lemma PendingIsReady<D>(d: Depacketizer<D>, before: seq<Packet>, p: Packet, r: Stepped<D>, s: Stepped<D>)
    requires StepMeaning(d, before, p, r, s) && !p.marker
    ensures s.gate.ready == (r.gate.ready && !IsBreak(before, p))
  {
  }

  lemma PredictiveIsReady<D>(d: Depacketizer<D>, before: seq<Packet>, p: Packet, r: Stepped<D>, s: Stepped<D>)
    requires StepMeaning(d, before, p, r, s) && s.verdict == Sent(false)
    ensures r.gate.ready && !IsBreak(before, p)
  {
  }

  lemma PredictiveEndsReady<D>(d: Depacketizer<D>, fails: nat -> bool, qs: seq<Packet>)
    requires NoneEmpty(qs) && qs != [] && Run(d, fails, qs).verdict == Sent(false)
    ensures IsReadyAt(d, fails, qs, |qs| - 1)
  {
    var before, p := qs[..|qs| - 1], qs[|qs| - 1];
    assert before + [p] == qs;
    PredictiveStepIsReady(d, fails, before, p);
  }

  lemma PredictiveStepIsReady<D>(d: Depacketizer<D>, fails: nat -> bool, before: seq<Packet>, p: Packet)
    requires NoneEmpty(before) && p.payload != [] && Run(d, fails, before + [p]).verdict == Sent(false)
    ensures Run(d, fails, before).gate.ready && !IsBreak(before, p)
  {
    UnitsDecideOutput(d, fails, before, p);
    PredictiveIsReady(d, before, p, Run(d, fails, before), Run(d, fails, before + [p]));
  }

  lemma PredictiveFollows<D>(d: Depacketizer<D>, fails: nat -> bool, qs: seq<Packet>, i: nat)
    requires NoneEmpty(qs) && IsUnitFrom(qs, i) && Run(d, fails, qs).verdict == Sent(false)
    ensures i > 0 && qs[i].sequence == NextSequence(qs[i - 1].sequence)
  {
    PredictiveEndsReady(d, fails, qs);
    ReadyThroughout(d, fails, qs, i);
  }

  lemma NothingLost(sent: seq<Packet>, at: seq<nat>, qs: seq<Packet>)
    requires IsSent(sent) && Arrived(sent, at, qs) && qs != [] && IsUnitFrom(qs, UnitStart(qs))
    requires var i := UnitStart(qs); i > 0 && qs[i].sequence == NextSequence(qs[i - 1].sequence)
    ensures IsWhole(sent, at, qs)
  {
    var j := UnitStart(qs) - 1;
    assert at[j] < at[j + 1] <= at[j] + SEQUENCE_NUMBERS;
    OnlyTheNextFollows(sent, at[j], at[j + 1]);
    WholeExactly(sent, at, qs);
  }

  // A written frame without an IDR slice is always the whole access unit that was sent.
  lemma PredictiveFramesAreWhole<D>(
    d: Depacketizer<D>, fails: nat -> bool, ps: seq<Packet>, sent: seq<Packet>, at: seq<nat>)
    requires ps != [] && IsSent(sent) && Arrived(sent, at, Kept(ps))
    ensures Run(d, fails, ps).verdict == Sent(false) ==> Kept(ps) != [] && IsWhole(sent, at, Kept(ps))
  {
    if Run(d, fails, ps).verdict == Sent(false) {
      SentIsUnit(d, fails, ps);
      LastIsKept(d, fails, ps);
      KeptHasNoneEmpty(ps);
      PredictiveFollows(d, fails, Kept(ps), UnitStart(Kept(ps)));
      NothingLost(sent, at, Kept(ps));
    }
  }

  lemma LastIsKept<D>(d: Depacketizer<D>, fails: nat -> bool, ps: seq<Packet>)
    requires ps != [] && Run(d, fails, ps).verdict.Sent?
    ensures Run(d, fails, ps) == Run(d, fails, Kept(ps))
  {
    EmptyPayloadsAreInvisible(d, fails, ps);
  }

  // If only first packets of units look like partition heads, every written frame is whole.
  lemma HeadsMakeFramesWhole<D>(
    d: Depacketizer<D>, fails: nat -> bool, ps: seq<Packet>, sent: seq<Packet>, at: seq<nat>)
    requires ps != [] && IsSent(sent) && Arrived(sent, at, Kept(ps))
    requires forall k: nat | k < |sent| && d.head(sent[k].payload) :: UnitStartsAt(sent, k)
    ensures Run(d, fails, ps).verdict.Sent? ==> Kept(ps) != [] && IsWhole(sent, at, Kept(ps))
  {
    if Run(d, fails, ps).verdict.Sent? {
      SentIsUnit(d, fails, ps);
      StartIsFirst(sent, at, Kept(ps));
    }
  }

  lemma StartIsFirst(sent: seq<Packet>, at: seq<nat>, qs: seq<Packet>)
    requires IsSent(sent) && Arrived(sent, at, qs) && qs != [] && IsUnitFrom(qs, UnitStart(qs))
    requires UnitStartsAt(sent, at[UnitStart(qs)])
    ensures IsWhole(sent, at, qs)
  {
    var first, last := at[UnitStart(qs)], at[|qs| - 1];
    UnitAsSent(sent, at, qs, UnitStart(qs));
    UnitIsOneUnit(sent, qs, UnitStart(qs), first, last);
    StretchInUnit(sent, first, last);
    SentUnit(sent, last);
    forall k: nat | FirstSent(sent, last) < k <= last
      ensures !UnitStartsAt(sent, k)
    {
      NoStartInside(sent, FirstSent(sent, last), last, k);
    }
    WholeExactly(sent, at, qs);
  }
}
