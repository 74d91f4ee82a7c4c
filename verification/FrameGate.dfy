/**
 The frame writer of cmd/go-ring/h264_writer.go as a function on values: one step per RTP packet,
 the depacketizer a parameter, every write to the output logged and allowed to fail.
 */
module FrameGate {
  import opened Wire
  import opened H264Bits
  import opened AnnexB
  import Payload

  const SPS: nat := 7
  const PPS: nat := 8
  const IDR: nat := 5
  const NON_IDR: nat := 1
  const MAX_FRAME_BYTES: nat := 0x80_0000

  type Uint16 = n: int | 0 <= n < 0x1_0000
  type Uint32 = n: int | 0 <= n < 0x1_0000_0000

  datatype Packet = Packet(sequence: Uint16, timestamp: Uint32, marker: bool, payload: seq<Byte>)

  // RTP sequence numbers wrap.
  function NextSequence(s: Uint16): Uint16 {
    (s + 1) % 0x1_0000
  }

  // The pion depacketizer: its start state, one Unmarshal, and the partition-head test.
  datatype Depacketizer<!D> = Depacketizer(
    start: D,
    unmarshal: (D, seq<Byte>) -> (D, Option<seq<Byte>>),
    head: seq<Byte> -> bool)

  datatype PpsInfo = PpsInfo(spsId: nat, data: seq<Byte>)

  datatype Stored = Stored(sps: map<nat, seq<Byte>>, pps: map<nat, PpsInfo>)

  datatype Gate<D> = Gate(
    dep: D,
    frame: seq<Byte>,
    stored: Stored,
    timestamp: Uint32,
    sequence: Uint16,
    haveTime: bool,
    haveSequence: bool,
    damaged: bool,
    ready: bool)

  // What one packet led to.
  datatype Verdict = Skipped | Pending | Damaged | Rejected | Withheld | Sent(idr: bool) | Failed

  datatype Stepped<D> = Stepped(gate: Gate<D>, log: seq<seq<Byte>>, verdict: Verdict)

  function Initial<D>(d: Depacketizer<D>): Gate<D> {
    Gate(d.start, [], Stored(map[], map[]), 0, 0, false, false, false, false)
  }

  function ResetFrame<D>(d: Depacketizer<D>, g: Gate<D>): Gate<D> {
    g.(frame := [], dep := d.start, haveTime := false, damaged := false)
  }

  //
  // Parameter sets.
  //

  function KindOf(nalu: seq<Byte>): nat {
    if nalu == [] then 0 else Payload.Kind(nalu[0])
  }

  predicate IsSlice(nalu: seq<Byte>) {
    KindOf(nalu) == 1 || KindOf(nalu) == 5
  }

  // Whether the IDs this NAL unit must carry can be read.
  predicate Parses(nalu: seq<Byte>) {
    && (KindOf(nalu) == SPS ==> SpsIdOf(nalu).Some?)
    && (KindOf(nalu) == PPS ==> PpsIdsOf(nalu).Some?)
    && (IsSlice(nalu) ==> SlicePpsIdOf(nalu).Some?)
  }

  function Store(stored: Stored, nalu: seq<Byte>): Stored
    requires Parses(nalu)
  {
    if KindOf(nalu) == SPS then stored.(sps := stored.sps[SpsIdOf(nalu).value := nalu])
    else if KindOf(nalu) == PPS then
      var ids := PpsIdsOf(nalu).value;
      stored.(pps := stored.pps[ids.0 := PpsInfo(ids.1, nalu)])
    else stored
  }

  // The PPS ID of a slice.
  function SliceIds(nalu: seq<Byte>): seq<nat>
    requires Parses(nalu)
  {
    if IsSlice(nalu) then [SlicePpsIdOf(nalu).value] else []
  }

  datatype Collected = Collected(stored: Stored, references: seq<nat>, hasIdr: bool, valid: bool)

  // Sets read before an unreadable unit stay stored.
  function CollectFrom(stored: Stored, references: seq<nat>, hasIdr: bool, nalus: seq<seq<Byte>>): Collected
    decreases |nalus|
  {
    if nalus == [] then Collected(stored, references, hasIdr, true)
    else if !Parses(nalus[0]) then Collected(stored, [], false, false)
    else
      CollectFrom(Store(stored, nalus[0]), references + SliceIds(nalus[0]), hasIdr || KindOf(nalus[0]) == IDR,
        nalus[1..])
  }

  function Collect(stored: Stored, frame: seq<Byte>): Collected {
    CollectFrom(stored, [], false, Split(frame))
  }

  predicate IsKnown(stored: Stored, id: nat) {
    id in stored.pps && stored.pps[id].spsId in stored.sps && stored.sps[stored.pps[id].spsId] != []
  }

  predicate AllKnown(stored: Stored, references: seq<nat>) {
    forall i | 0 <= i < |references| :: IsKnown(stored, references[i])
  }

  datatype ParameterSet = ParameterSet(sps: seq<Byte>, pps: seq<Byte>)

  function SetFor(stored: Stored, id: nat): ParameterSet
    requires IsKnown(stored, id)
  {
    ParameterSet(stored.sps[stored.pps[id].spsId], stored.pps[id].data)
  }

  function SetsFor(stored: Stored, references: seq<nat>): seq<ParameterSet>
    requires AllKnown(stored, references)
  {
    seq(|references|, i requires 0 <= i < |references| => SetFor(stored, references[i]))
  }

  // Start code, SPS, start code, PPS, for each set in turn.
  function SetWrites(sets: seq<ParameterSet>): seq<seq<Byte>> {
    if sets == [] then []
    else [START_CODE, sets[0].sps, START_CODE, sets[0].pps] + SetWrites(sets[1..])
  }

  //
  // Output.
  //

  // Writes are tried in order up to the first failure; `fails` says which calls fail.
  function Attempt(fails: nat -> bool, log: seq<seq<Byte>>, chunks: seq<seq<Byte>>): (r: (seq<seq<Byte>>, bool))
    ensures r.1 ==> r.0 == log + chunks
    ensures log <= r.0 <= log + chunks
    decreases |chunks|
  {
    if chunks == [] then (log, true) else
    if fails(|log|) then (log + [chunks[0]], false) else
    assert log + [chunks[0]] + chunks[1..] == log + chunks;
    Attempt(fails, log + [chunks[0]], chunks[1..])
  }

  function SendFrame<D>(fails: nat -> bool, log: seq<seq<Byte>>, g: Gate<D>, idr: bool): Stepped<D> {
    var sent := Attempt(fails, log, [g.frame]);
    Stepped(g, sent.0, if sent.1 then Sent(idr) else Failed)
  }

  // What follows once every reference is known.
  function WriteAccepted<D>(
    fails: nat -> bool, log: seq<seq<Byte>>, g: Gate<D>, references: seq<nat>, hasIdr: bool): Stepped<D>
    requires AllKnown(g.stored, references)
  {
    if hasIdr then
      var sets := Attempt(fails, log, SetWrites(SetsFor(g.stored, references)));
      if sets.1 then SendFrame(fails, sets.0, g.(ready := true), true) else Stepped(g, sets.0, Failed)
    else if g.ready then SendFrame(fails, log, g, false)
    else Stepped(g, log, Withheld)
  }

  // What follows collecting, with the sets of the frame already stored.
  function WriteCollected<D>(fails: nat -> bool, log: seq<seq<Byte>>, g: Gate<D>, c: Collected): Stepped<D> {
    if !c.valid || !AllKnown(g.stored, c.references) then Stepped(g.(ready := false), log, Rejected)
    else WriteAccepted(fails, log, g, c.references, c.hasIdr)
  }

  function WriteFrame<D>(fails: nat -> bool, log: seq<seq<Byte>>, g: Gate<D>): Stepped<D> {
    var c := Collect(g.stored, g.frame);
    WriteCollected(fails, log, g.(stored := c.stored), c)
  }

  //
  // One packet.
  //

  function OnTimestamp<D>(d: Depacketizer<D>, g: Gate<D>, p: Packet): Gate<D> {
    if g.haveTime && p.timestamp != g.timestamp then ResetFrame(d, g.(ready := false)) else g
  }

  function OnSequence<D>(g: Gate<D>, p: Packet): Gate<D> {
    (if g.haveSequence && p.sequence != NextSequence(g.sequence)
     then g.(ready := false, damaged := g.damaged || g.haveTime)
     else g).(sequence := p.sequence, haveSequence := true)
  }

  function OnFirst<D>(d: Depacketizer<D>, g: Gate<D>, p: Packet): Gate<D> {
    if g.haveTime then g
    else g.(timestamp := p.timestamp, haveTime := true, damaged := g.damaged || !d.head(p.payload))
  }

  ghost function AppendPayload<D>(d: Depacketizer<D>, g: Gate<D>, payload: seq<Byte>): Gate<D> {
    if !Payload.IsValid(payload) then g.(damaged := true) else
    var (dep, data) := d.unmarshal(g.dep, payload);
    if data.None? || |g.frame| + |data.value| > MAX_FRAME_BYTES then g.(dep := dep, damaged := true)
    else g.(dep := dep, frame := g.frame + data.value)
  }

  ghost function Admit<D>(d: Depacketizer<D>, g: Gate<D>, p: Packet): Gate<D> {
    var g := OnFirst(d, OnSequence(OnTimestamp(d, g, p), p), p);
    if g.damaged then g else AppendPayload(d, g, p.payload)
  }

  ghost function Step<D>(
    d: Depacketizer<D>, fails: nat -> bool, g: Gate<D>, log: seq<seq<Byte>>, p: Packet): Stepped<D>
  {
    if p.payload == [] then Stepped(g, log, Skipped) else
    var g := Admit(d, g, p);
    if !p.marker then Stepped(g, log, Pending)
    else if g.damaged then Stepped(ResetFrame(d, g), log, Damaged)
    else
      var w := WriteFrame(fails, log, g);
      w.(gate := ResetFrame(d, w.gate))
  }

  // A run over every packet of ps. Its verdict is the one on the last packet.
  ghost function Run<D>(d: Depacketizer<D>, fails: nat -> bool, ps: seq<Packet>): Stepped<D> {
    if ps == [] then Stepped(Initial(d), [], Skipped) else
    var before := Run(d, fails, ps[..|ps| - 1]);
    Step(d, fails, before.gate, before.log, ps[|ps| - 1])
  }
}
