/**
 The replay loop of cmd/go-ring/rtp_recording.go driving the frame writer, as the replay-video
 command does: a recording replays to the very writes of the live run.
 */
module ReplayVideo {
  import opened Wire
  import opened FrameGate
  import opened FrameGuarantees
  import opened FrameWriter
  import opened RtpRecording

  datatype ReadStatus = Full | Eof | Short

  // io.Reader over the bytes of a recording, read with io.ReadFull.
  class Reader {
    const data: seq<Byte>
    var pos: nat

    ghost predicate Valid()
      reads this
    {
      pos <= |data|
    }

    ghost function Rest(): seq<Byte>
      requires Valid()
      reads this
    {
      data[pos..]
    }

    constructor (data: seq<Byte>)
      ensures Valid() && this.data == data && Rest() == data
    {
      this.data := data;
      pos := 0;
    }

    // EOF only if nothing was left; a partial read consumes what there was.
    method ReadFull(n: nat) returns (bytes: seq<Byte>, status: ReadStatus)
      requires Valid() && n > 0
      modifies `pos
      ensures Valid()
      ensures status == Full <==> n <= |old(Rest())|
      ensures status == Full ==> bytes == old(Rest())[..n] && Rest() == old(Rest())[n..]
      ensures status == Eof <==> old(Rest()) == []
      ensures status != Full ==> Rest() == []
    {
      if pos + n <= |data| {
        bytes, status := data[pos..pos + n], Full;
        pos := pos + n;
      } else {
        bytes, status := data[pos..], if pos == |data| then Eof else Short;
        pos := |data|;
      }
    }
  }

  type WriterView<D> = (Gate<D>, seq<seq<Byte>>)

  // WriteRTP as a consumer of packets.
  ghost function Consumer<D>(d: Depacketizer<D>, fails: nat -> bool): (WriterView<D>, Packet) -> (WriterView<D>, bool) {
    (s: WriterView<D>, p: Packet) =>
      var t := Step(d, fails, s.0, s.1, p);
      ((t.gate, t.log), t.verdict != Failed)
  }

  ghost function ViewOf<D>(w: H264FrameWriter<D>): WriterView<D>
    requires w.Valid()
    reads w, w.buffers, w.output
  {
    (w.State(), w.output.log)
  }

  // The reading half of one turn of the loop.
  method ReadPacket<P>(codec: Codec<P>, reader: Reader) returns (next: Next<P>)
    requires reader.Valid()
    modifies reader
    ensures reader.Valid()
    ensures next == NextPacket(codec, old(reader.Rest()))
    ensures next.Got? ==> reader.Rest() == next.rest
  {
    ghost var rest := reader.Rest();
    var header, status := reader.ReadFull(4);
    if status == Eof {
      return End(Finished);
    }
    if status == Short {
      return End(LengthUnreadable);
    }
    var size := ReadBigEndian32(header);
    if size == 0 || size > MAX_RECORDED_PACKET {
      return End(LengthInvalid);
    }
    var data;
    data, status := reader.ReadFull(size);
    if status != Full {
      return End(PacketUnreadable);
    }
    assert data == rest[4..4 + size] && reader.Rest() == rest[4 + size..];
    var packet := codec.unmarshal(data);
    if packet.None? {
      return End(PacketUndecodable);
    }
    return Got(packet.value, reader.data[reader.pos..]);
  }

  method ReplayPackets<D>(codec: Codec<Packet>, reader: Reader, w: H264FrameWriter<D>) returns (outcome: Outcome)
    requires reader.Valid() && w.Valid()
    modifies reader, w, w.buffers, w.output
    ensures w.Valid() && fresh(w.buffers - old(w.buffers))
    ensures Replayed(ViewOf(w), outcome)
            == ReplayRecords(codec, Consumer(w.d, w.output.fails), old(reader.Rest()), old(ViewOf(w)))
  {
    ghost var goal := ReplayRecords(codec, Consumer(w.d, w.output.fails), reader.Rest(), ViewOf(w));
    while true
      invariant reader.Valid() && w.Valid() && fresh(w.buffers - old(w.buffers))
      invariant ReplayRecords(codec, Consumer(w.d, w.output.fails), reader.Rest(), ViewOf(w)) == goal
      decreases |reader.Rest()|
    {
      var next := ReadPacket(codec, reader);
      if next.End? {
        return next.outcome;
      }
      var err := w.WriteRTP(next.packet);
      if err {
        return ConsumerFailed;
      }
    }
  }

  method ReplayRtp<D>(codec: Codec<Packet>, reader: Reader, w: H264FrameWriter<D>) returns (outcome: Outcome)
    requires reader.Valid() && w.Valid()
    modifies reader, w, w.buffers, w.output
    ensures w.Valid() && fresh(w.buffers - old(w.buffers))
    ensures Replayed(ViewOf(w), outcome)
            == Replay(codec, Consumer(w.d, w.output.fails), old(reader.Rest()), old(ViewOf(w)))
  {
    var magic, status := reader.ReadFull(|MAGIC|);
    if status != Full {
      return HeaderUnreadable;
    }
    if magic != MAGIC {
      return HeaderInvalid;
    }
    outcome := ReplayPackets(codec, reader, w);
  }

  //
  // Replaying is reliving.
  //

  lemma {:induction false} LiveAppend<P, S>(consume: (S, P) -> (S, bool), ps: seq<P>, p: P, s: S)
    ensures var live := Live(consume, ps, s);
            Live(consume, ps + [p], s) == if live.1 then consume(live.0, p) else live
    decreases |ps|
  {
    if ps == [] {
      assert ps + [p] == [p] && |[p][1..]| == 0;
    } else {
      assert (ps + [p])[1..] == ps[1..] + [p];
      var next := consume(s, ps[0]);
      if next.1 {
        LiveAppend(consume, ps[1..], p, next.0);
      }
    }
  }

  ghost predicate EndsLike<D>(d: Depacketizer<D>, fails: nat -> bool, ps: seq<Packet>, view: WriterView<D>) {
    var r := Run(d, fails, ps);
    view == (r.gate, r.log)
  }

  // The m-th packet of the run brought the first failing write, and the run stopped there.
  ghost predicate StopsAt<D>(d: Depacketizer<D>, fails: nat -> bool, ps: seq<Packet>, m: nat, view: WriterView<D>) {
    && 1 <= m <= |ps|
    && NoFailure(d, fails, ps[..m - 1])
    && Run(d, fails, ps[..m]).verdict == Failed
    && EndsLike(d, fails, ps[..m], view)
  }

  // The live run: all of ps without a failing write, or up to the packet that brought the first one.
  ghost predicate IsLiveRun<D>(d: Depacketizer<D>, fails: nat -> bool, ps: seq<Packet>, live: (WriterView<D>, bool)) {
    if live.1 then NoFailure(d, fails, ps) && EndsLike(d, fails, ps, live.0)
    else exists m: nat :: StopsAt(d, fails, ps, m, live.0)
  }

  lemma LiveStep<D>(d: Depacketizer<D>, fails: nat -> bool, ps: seq<Packet>, view: WriterView<D>)
    requires ps != [] && NoFailure(d, fails, ps[..|ps| - 1]) && EndsLike(d, fails, ps[..|ps| - 1], view)
    ensures IsLiveRun(d, fails, ps, Consumer(d, fails)(view, ps[|ps| - 1]))
  {
    var next := Consumer(d, fails)(view, ps[|ps| - 1]);
    assert EndsLike(d, fails, ps, next.0) && next.1 == (Run(d, fails, ps).verdict != Failed);
    assert ps[..|ps|] == ps;
    if !next.1 {
      assert StopsAt(d, fails, ps, |ps|, next.0);
    }
  }

  lemma StoppedRunStays<D>(d: Depacketizer<D>, fails: nat -> bool, ps: seq<Packet>, view: WriterView<D>)
    requires ps != [] && IsLiveRun(d, fails, ps[..|ps| - 1], (view, false))
    ensures IsLiveRun(d, fails, ps, (view, false))
  {
    var m: nat :| StopsAt(d, fails, ps[..|ps| - 1], m, view);
    PrefixOfInit(ps, m);
    PrefixOfInit(ps, m - 1);
    assert StopsAt(d, fails, ps, m, view);
  }

  lemma LiveRunStep<D>(
    d: Depacketizer<D>, fails: nat -> bool, ps: seq<Packet>, live: (WriterView<D>, bool), next: (WriterView<D>, bool))
    requires ps != [] && IsLiveRun(d, fails, ps[..|ps| - 1], live)
    requires next == if live.1 then Consumer(d, fails)(live.0, ps[|ps| - 1]) else live
    ensures IsLiveRun(d, fails, ps, next)
  {
    if live.1 {
      LiveStep(d, fails, ps, live.0);
    } else {
      StoppedRunStays(d, fails, ps, live.0);
    }
  }

  lemma {:induction false} LiveIsRun<D>(
    d: Depacketizer<D>, fails: nat -> bool, ps: seq<Packet>, live: (WriterView<D>, bool))
    requires live == Live(Consumer(d, fails), ps, (Initial(d), []))
    ensures IsLiveRun(d, fails, ps, live)
    decreases |ps|
  {
    if |ps| > 0 {
      var before := ps[..|ps| - 1];
      LastSplit(ps);
      var live' := Live(Consumer(d, fails), before, (Initial(d), []));
      LiveIsRun(d, fails, before, live');
      LiveAppend(Consumer(d, fails), before, ps[|ps| - 1], (Initial(d), []));
      LiveRunStep(d, fails, ps, live', live);
    } else {
      LiveRunStart(d, fails);
    }
  }

  lemma LastSplit(ps: seq<Packet>)
    requires ps != []
    ensures ps[..|ps| - 1] + [ps[|ps| - 1]] == ps
  {
  }

  lemma PrefixOfInit(ps: seq<Packet>, m: nat)
    requires m < |ps|
    ensures ps[..|ps| - 1][..m] == ps[..m]
  {
  }

  lemma LiveRunStart<D>(d: Depacketizer<D>, fails: nat -> bool)
    ensures IsLiveRun(d, fails, [], ((Initial(d), []), true))
  {
  }

  // Replaying the recording of ps into a new writer ends with the state and the writes of the live
  // run over ps.
  lemma ReplayRelivesTheRun<D>(codec: Codec<Packet>, d: Depacketizer<D>, fails: nat -> bool, ps: seq<Packet>)
    requires AllRecordable(codec, ps)
    ensures var r := Replay(codec, Consumer(d, fails), File(codec, ps), (Initial(d), []));
            && (r.outcome == Finished || r.outcome == ConsumerFailed)
            && IsLiveRun(d, fails, ps, (r.state, r.outcome == Finished))
  {
    ReplayOfWhole(codec, Consumer(d, fails), ps, (Initial(d), []));
    LiveIsRun(d, fails, ps, Live(Consumer(d, fails), ps, (Initial(d), [])));
  }
}
