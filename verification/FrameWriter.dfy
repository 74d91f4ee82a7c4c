/**
 The frame writer of cmd/go-ring/h264_writer.go, updated in place. Byte slices that keep their backing
 array between packets are ByteBuffer objects: the frame and each stored parameter set have one each,
 which no other slot shares. Each method is proved against the functions of FrameGate.
 */
module FrameWriter {
  import opened Wire
  import opened H264Bits
  import opened AnnexB
  import opened FrameGate
  import Payload

  // The one place that holds a buffer.
  datatype Slot = FrameSlot | SpsSlot(id: nat) | PpsSlot(id: nat)

  class ByteBuffer {
    ghost const slot: Slot
    var bytes: seq<Byte>

    constructor (bytes: seq<Byte>, ghost slot: Slot)
      ensures this.bytes == bytes && this.slot == slot
    {
      this.bytes, this.slot := bytes, slot;
    }

    method Truncate()
      modifies this
      ensures bytes == []
    {
      bytes := [];
    }

    method Append(more: seq<Byte>)
      modifies this
      ensures bytes == old(bytes) + more
    {
      bytes := bytes + more;
    }
  }

  // An output whose k-th write fails when `fails(k)`. It logs every write handed to it.
  class Sink {
    const fails: nat -> bool
    var log: seq<seq<Byte>>

    constructor (fails: nat -> bool)
      ensures this.fails == fails && log == []
    {
      this.fails := fails;
      log := [];
    }

    method Write(chunk: seq<Byte>) returns (ok: bool)
      modifies this
      ensures log == old(log) + [chunk] && ok == !fails(|old(log)|)
    {
      ok := !fails(|log|);
      log := log + [chunk];
    }
  }

  datatype PpsEntry = PpsEntry(spsId: nat, data: ByteBuffer)

  class H264FrameWriter<D> {
    const d: Depacketizer<D>
    const output: Sink
    const frame: ByteBuffer
    var depacketizer: D
    var sps: map<nat, ByteBuffer>
    var pps: map<nat, PpsEntry>
    var timestamp: Uint32
    var sequence: Uint16
    var haveTime: bool
    var haveSequence: bool
    var damaged: bool
    var ready: bool
    ghost var buffers: set<ByteBuffer>

    // Each buffer is held in its own slot only, so no two slices share one.
    ghost predicate Valid()
      reads `sps, `pps, `buffers
    {
      && frame in buffers && frame.slot == FrameSlot
      && (forall id | id in sps :: sps[id] in buffers && sps[id].slot == SpsSlot(id))
      && (forall id | id in pps :: pps[id].data in buffers && pps[id].data.slot == PpsSlot(id))
    }

    ghost function SpsSets(): map<nat, seq<Byte>>
      requires Valid()
      reads `sps, `pps, `buffers, buffers - {frame}
    {
      map id | id in sps :: sps[id].bytes
    }

    ghost function PpsSets(): map<nat, PpsInfo>
      requires Valid()
      reads `sps, `pps, `buffers, buffers - {frame}
    {
      map id | id in pps :: PpsInfo(pps[id].spsId, pps[id].data.bytes)
    }

    ghost function Sets(): Stored
      requires Valid()
      reads `sps, `pps, `buffers, buffers - {frame}
    {
      Stored(SpsSets(), PpsSets())
    }

    ghost function State(): Gate<D>
      requires Valid()
      reads this, buffers
    {
      Gate(depacketizer, frame.bytes, Sets(), timestamp, sequence, haveTime, haveSequence, damaged, ready)
    }

    constructor (d: Depacketizer<D>, output: Sink)
      ensures Valid() && State() == Initial(d) && this.d == d && this.output == output
      ensures fresh(buffers)
    {
      this.d, this.output := d, output;
      var b := new ByteBuffer([], FrameSlot);
      frame, buffers := b, {b};
      depacketizer := d.start;
      sps, pps := map[], map[];
      timestamp, sequence := 0, 0;
      haveTime, haveSequence, damaged, ready := false, false, false, false;
    }

    // append(w.sps[id][:0], nalu...): a present buffer is overwritten, a missing one is allocated.
    method StoreSps(id: nat, nalu: seq<Byte>)
      requires Valid()
      modifies `sps, `buffers, buffers - {frame}
      ensures Valid() && fresh(buffers - old(buffers))
      ensures SpsSets() == old(SpsSets())[id := nalu] && PpsSets() == old(PpsSets())
    {
      if id in sps {
        Overwrite(sps[id], nalu);
      } else {
        var b := Allocate(SpsSlot(id), nalu);
        sps := sps[id := b];
      }
    }

    method StorePps(id: nat, spsId: nat, nalu: seq<Byte>)
      requires Valid()
      modifies `pps, `buffers, buffers - {frame}
      ensures Valid() && fresh(buffers - old(buffers))
      ensures SpsSets() == old(SpsSets()) && PpsSets() == old(PpsSets())[id := PpsInfo(spsId, nalu)]
    {
      if id in pps {
        Overwrite(pps[id].data, nalu);
        RecordPps(id, spsId, pps[id].data);
      } else {
        var b := Allocate(PpsSlot(id), nalu);
        RecordPps(id, spsId, b);
      }
    }

    method Allocate(ghost slot: Slot, nalu: seq<Byte>) returns (b: ByteBuffer)
      requires Valid() && slot != FrameSlot
      modifies `buffers
      ensures Valid() && fresh(b) && buffers == old(buffers) + {b}
      ensures b.slot == slot && b.bytes == nalu && b != frame
      ensures SpsSets() == old(SpsSets()) && PpsSets() == old(PpsSets())
    {
      b := new ByteBuffer(nalu, slot);
      buffers := buffers + {b};
    }

    method RecordPps(id: nat, spsId: nat, b: ByteBuffer)
      requires Valid() && b in buffers && b != frame && b.slot == PpsSlot(id)
      modifies `pps
      ensures Valid()
      ensures SpsSets() == old(SpsSets()) && PpsSets() == old(PpsSets())[id := PpsInfo(spsId, b.bytes)]
    {
      pps := pps[id := PpsEntry(spsId, b)];
    }

    method Overwrite(b: ByteBuffer, nalu: seq<Byte>)
      requires Valid() && b in buffers && b != frame
      modifies b
      ensures Valid() && b.bytes == nalu
      ensures SpsSets() == if b.slot.SpsSlot? && b.slot.id in sps && sps[b.slot.id] == b
                           then old(SpsSets())[b.slot.id := nalu] else old(SpsSets())
      ensures PpsSets() == if b.slot.PpsSlot? && b.slot.id in pps && pps[b.slot.id].data == b
                           then old(PpsSets())[b.slot.id := PpsInfo(pps[b.slot.id].spsId, nalu)] else old(PpsSets())
    {
      b.Truncate();
      b.Append(nalu);
      assert b.bytes == nalu;
    }

    method CollectSps(nalu: seq<Byte>) returns (ok: bool)
      requires Valid()
      modifies `sps, `buffers, buffers - {frame}
      ensures Valid() && fresh(buffers - old(buffers))
      ensures ok == SpsIdOf(nalu).Some?
      ensures Sets() == if ok then old(Sets()).(sps := old(SpsSets())[SpsIdOf(nalu).value := nalu]) else old(Sets())
    {
      var id := H264SpsId(nalu);
      if id.Some? {
        StoreSps(id.value, nalu);
      }
      return id.Some?;
    }

    method CollectPps(nalu: seq<Byte>) returns (ok: bool)
      requires Valid()
      modifies `pps, `buffers, buffers - {frame}
      ensures Valid() && fresh(buffers - old(buffers))
      ensures ok == PpsIdsOf(nalu).Some?
      ensures ok ==> var ids := PpsIdsOf(nalu).value;
                     Sets() == old(Sets()).(pps := old(PpsSets())[ids.0 := PpsInfo(ids.1, nalu)])
      ensures !ok ==> Sets() == old(Sets())
    {
      var ids := H264PpsIds(nalu);
      if ids.Some? {
        StorePps(ids.value.0, ids.value.1, nalu);
      }
      return ids.Some?;
    }

    // The body of the collecting loop: one piece between start codes.
    method CollectUnit(nalu: seq<Byte>) returns (ids: seq<nat>, ok: bool)
      requires Valid()
      modifies `sps, `pps, `buffers, buffers - {frame}
      ensures Valid() && fresh(buffers - old(buffers))
      ensures ok == Parses(nalu)
      ensures ok ==> Sets() == Store(old(Sets()), nalu) && ids == SliceIds(nalu)
      ensures !ok ==> Sets() == old(Sets())
    {
      ids := [];
      if |nalu| == 0 {
        return ids, true;
      }
      var kind := Payload.Kind(nalu[0]);
      if kind == SPS {
        ok := CollectSps(nalu);
        return [], ok;
      } else if kind == PPS {
        ok := CollectPps(nalu);
        return [], ok;
      } else if kind == IDR || kind == NON_IDR {
        var id := H264SlicePpsId(nalu);
        if id.None? {
          return [], false;
        }
        ids := [id.value];
      }
      return ids, true;
    }

    method CollectParameterReferences(nalus: seq<seq<Byte>>) returns (references: seq<nat>, hasIdr: bool, valid: bool)
      requires Valid()
      modifies `sps, `pps, `buffers, buffers - {frame}
      ensures Valid() && fresh(buffers - old(buffers))
      ensures Collected(Sets(), references, hasIdr, valid) == CollectFrom(old(Sets()), [], false, nalus)
    {
      references, hasIdr := [], false;
      for i := 0 to |nalus|
        invariant Valid() && fresh(buffers - old(buffers))
        invariant CollectFrom(Sets(), references, hasIdr, nalus[i..]) == CollectFrom(old(Sets()), [], false, nalus)
      {
        CollectFirst(Sets(), references, hasIdr, nalus, i);
        var ids, ok := CollectUnit(nalus[i]);
        if !ok {
          return [], false, false;
        }
        references, hasIdr := references + ids, hasIdr || KindOf(nalus[i]) == IDR;
      }
      return references, hasIdr, true;
    }

    method HasReferencedParameterSets(references: seq<nat>) returns (known: bool)
      requires Valid()
      ensures known == AllKnown(Sets(), references)
    {
      for i := 0 to |references|
        invariant forall j | 0 <= j < i :: IsKnown(Sets(), references[j])
      {
        var id := references[i];
        if id !in pps || pps[id].spsId !in sps || |sps[pps[id].spsId].bytes| == 0 {
          return false;
        }
      }
      return true;
    }

    method WriteSet(s: ParameterSet) returns (ok: bool)
      modifies output
      ensures (output.log, ok) == Attempt(output.fails, old(output.log), SetWrites([s]))
    {
      var nalus := [s.sps, s.pps];
      ghost var all := Attempt(output.fails, output.log, SetWrites([s]));
      SetWritesOne(s);
      for j := 0 to 2
        invariant Attempt(output.fails, output.log, Prefixed(nalus[j..])) == all
      {
        AttemptFirst(output.fails, output.log, START_CODE, [nalus[j]] + Prefixed(nalus[j + 1..]));
        ok := output.Write(START_CODE);
        if !ok {
          return;
        }
        AttemptFirst(output.fails, output.log, nalus[j], Prefixed(nalus[j + 1..]));
        ok := output.Write(nalus[j]);
        if !ok {
          return;
        }
      }
      return true;
    }

    method WriteReferenced(id: nat) returns (ok: bool)
      requires Valid() && IsKnown(Sets(), id)
      modifies output
      ensures Valid() && State() == old(State())
      ensures (output.log, ok) == Attempt(output.fails, old(output.log), SetWrites([SetFor(Sets(), id)]))
    {
      var entry := pps[id];
      ok := WriteSet(ParameterSet(sps[entry.spsId].bytes, entry.data.bytes));
    }

    method WriteParameterSets(references: seq<nat>) returns (ok: bool)
      requires Valid() && AllKnown(Sets(), references)
      modifies output
      ensures Valid() && State() == old(State())
      ensures (output.log, ok) == Attempt(output.fails, old(output.log), SetWrites(SetsFor(Sets(), references)))
    {
      ghost var sets := SetsFor(Sets(), references);
      ghost var all := Attempt(output.fails, output.log, SetWrites(sets));
      for i := 0 to |references|
        invariant Valid() && State() == old(State())
        invariant Attempt(output.fails, output.log, SetWrites(sets[i..])) == all
      {
        assert IsKnown(Sets(), references[i]);
        ghost var s := SetFor(Sets(), references[i]);
        assert sets[i] == s && sets[i..] == [s] + sets[i + 1..];
        SetWritesFirst(s, sets[i + 1..]);
        AttemptAppend(output.fails, output.log, SetWrites([s]), SetWrites(sets[i + 1..]));
        ok := WriteReferenced(references[i]);
        if !ok {
          return;
        }
      }
      return true;
    }

    method WriteAcceptedFrame(references: seq<nat>, hasIdr: bool) returns (err: bool)
      requires Valid() && AllKnown(Sets(), references)
      modifies `ready, output
      ensures Valid()
      ensures var w := WriteAccepted(output.fails, old(output.log), old(State()), references, hasIdr);
              State() == w.gate && output.log == w.log && err == (w.verdict == Failed)
    {
      if hasIdr {
        var ok := WriteParameterSets(references);
        if !ok {
          return true;
        }
        ready := true;
      }
      if !ready {
        return false;
      }
      err := PutFrame();
    }

    method PutFrame() returns (err: bool)
      requires Valid()
      modifies output
      ensures Valid() && State() == old(State())
      ensures (output.log, !err) == Attempt(output.fails, old(output.log), [frame.bytes])
    {
      AttemptOne(output.fails, output.log, frame.bytes);
      var ok := output.Write(frame.bytes);
      return !ok;
    }

    method WriteCollectedFrame(references: seq<nat>, hasIdr: bool, valid: bool) returns (err: bool)
      requires Valid()
      modifies `ready, output
      ensures Valid()
      ensures var c := Collected(old(Sets()), references, hasIdr, valid);
              var w := WriteCollected(output.fails, old(output.log), old(State()), c);
              State() == w.gate && output.log == w.log && err == (w.verdict == Failed)
    {
      var known := valid;
      if known {
        known := HasReferencedParameterSets(references);
      }
      err := false;
      if !known {
        ready := false;
      } else {
        err := WriteAcceptedFrame(references, hasIdr);
      }
    }

    method WriteFrame() returns (err: bool)
      requires Valid()
      modifies `sps, `pps, `ready, `buffers, buffers - {frame}, output
      ensures Valid() && fresh(buffers - old(buffers))
      ensures var w := FrameGate.WriteFrame(output.fails, old(output.log), old(State()));
              State() == w.gate && output.log == w.log && err == (w.verdict == Failed)
    {
      var references, hasIdr, valid := CollectParameterReferences(Split(frame.bytes));
      err := WriteCollectedFrame(references, hasIdr, valid);
    }

    method AppendPacketPayload(payload: seq<Byte>)
      requires Valid()
      modifies `damaged, `depacketizer, frame
      ensures Valid()
      ensures State() == AppendPayload(d, old(State()), payload)
    {
      var valid := Payload.ValidH264Payload(payload);
      if !valid {
        damaged := true;
        return;
      }
      var unmarshalled := d.unmarshal(depacketizer, payload);
      depacketizer := unmarshalled.0;
      AppendData(unmarshalled.1);
    }

    method AppendData(data: Option<seq<Byte>>)
      requires Valid()
      modifies `damaged, frame
      ensures Valid()
      ensures State() == if data.None? || |old(frame.bytes)| + |data.value| > MAX_FRAME_BYTES
                         then old(State()).(damaged := true)
                         else old(State()).(frame := old(frame.bytes) + data.value)
    {
      if data.None? || |frame.bytes| + |data.value| > MAX_FRAME_BYTES {
        damaged := true;
        return;
      }
      frame.Append(data.value);
    }

    method ResetFrame()
      requires Valid()
      modifies `depacketizer, `haveTime, `damaged, frame
      ensures Valid()
      ensures State() == FrameGate.ResetFrame(d, old(State()))
    {
      frame.Truncate();
      depacketizer := d.start;
      haveTime, damaged := false, false;
    }

    // WriteRTP up to its look at the marker, stage by stage.

    method NoteTimestamp(p: Packet)
      requires Valid()
      modifies `depacketizer, `haveTime, `damaged, `ready, frame
      ensures Valid()
      ensures State() == OnTimestamp(d, old(State()), p)
    {
      if haveTime && p.timestamp != timestamp {
        ready := false;
        ResetFrame();
      }
    }

    method NoteSequence(p: Packet)
      requires Valid()
      modifies `sequence, `haveSequence, `damaged, `ready
      ensures Valid()
      ensures State() == OnSequence(old(State()), p)
    {
      if haveSequence && p.sequence != NextSequence(sequence) {
        ready := false;
        if haveTime {
          damaged := true;
        }
      }
      sequence, haveSequence := p.sequence, true;
    }

    method NoteFirst(p: Packet)
      requires Valid()
      modifies `timestamp, `haveTime, `damaged
      ensures Valid()
      ensures State() == OnFirst(d, old(State()), p)
    {
      if !haveTime {
        timestamp, haveTime := p.timestamp, true;
        if !d.head(p.payload) {
          damaged := true;
        }
      }
    }

    method AdmitPacket(p: Packet)
      requires Valid()
      modifies `depacketizer, `timestamp, `sequence, `haveTime, `haveSequence, `damaged, `ready, frame
      ensures Valid()
      ensures State() == Admit(d, old(State()), p)
    {
      NoteTimestamp(p);
      NoteSequence(p);
      NoteFirst(p);
      if !damaged {
        AppendPacketPayload(p.payload);
      }
    }

    method WriteRTP(p: Packet) returns (err: bool)
      requires Valid()
      modifies this, buffers, output
      ensures Valid() && fresh(buffers - old(buffers))
      ensures var s := Step(d, output.fails, old(State()), old(output.log), p);
              State() == s.gate && output.log == s.log && err == (s.verdict == Failed)
    {
      if |p.payload| == 0 {
        return false;
      }
      AdmitPacket(p);
      if !p.marker {
        return false;
      }
      err := false;
      if !damaged {
        err := WriteFrame();
      }
      ResetFrame();
    }
  }

  lemma AttemptOne(fails: nat -> bool, log: seq<seq<Byte>>, chunk: seq<Byte>)
    ensures Attempt(fails, log, [chunk]) == (log + [chunk], !fails(|log|))
  {
  }

  // Each unit behind a start code.
  ghost function Prefixed(nalus: seq<seq<Byte>>): seq<seq<Byte>> {
    if nalus == [] then [] else [START_CODE] + ([nalus[0]] + Prefixed(nalus[1..]))
  }

  lemma CollectFirst(stored: Stored, references: seq<nat>, hasIdr: bool, nalus: seq<seq<Byte>>, i: nat)
    requires i < |nalus|
    ensures CollectFrom(stored, references, hasIdr, nalus[i..])
            == if !Parses(nalus[i]) then Collected(stored, [], false, false)
               else CollectFrom(Store(stored, nalus[i]), references + SliceIds(nalus[i]),
                                hasIdr || KindOf(nalus[i]) == IDR, nalus[i + 1..])
  {
  }

  lemma SetWritesOne(s: ParameterSet)
    ensures SetWrites([s]) == Prefixed([s.sps, s.pps])
  {
    var nalus := [s.sps, s.pps];
    assert |[s][1..]| == 0 && nalus[1..] == [s.pps] && |[s.pps][1..]| == 0;
    assert Prefixed([s.pps]) == [START_CODE, s.pps];
  }

  lemma SetWritesFirst(s: ParameterSet, rest: seq<ParameterSet>)
    ensures SetWrites([s] + rest) == SetWrites([s]) + SetWrites(rest)
  {
  }

  lemma AttemptFirst(fails: nat -> bool, log: seq<seq<Byte>>, chunk: seq<Byte>, rest: seq<seq<Byte>>)
    ensures Attempt(fails, log, [chunk] + rest)
            == if fails(|log|) then (log + [chunk], false) else Attempt(fails, log + [chunk], rest)
  {
  }

  lemma {:induction false} AttemptAppend(fails: nat -> bool, log: seq<seq<Byte>>, a: seq<seq<Byte>>, b: seq<seq<Byte>>)
    ensures var first := Attempt(fails, log, a);
            Attempt(fails, log, a + b) == if first.1 then Attempt(fails, first.0, b) else first
    decreases |a|
  {
    if a == [] {
      assert a + b == b;
    } else {
      assert (a + b)[0] == a[0] && (a + b)[1..] == a[1..] + b;
      AttemptAppend(fails, log + [a[0]], a[1..], b);
    }
  }
}
