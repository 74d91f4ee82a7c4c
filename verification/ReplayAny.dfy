/** Replaying any bytes at all: recordings, other files, and recordings gone bad. */
module ReplayAny {
  import opened Wire
  import opened RtpRecording

  //
  // What a byte string holds, read without the replay loop.
  //

  // The text that every recording starts with.
  predicate HasHeader(data: seq<Byte>) {
    |data| >= 15 && forall i | 0 <= i < 15 :: data[i] == "go-ring-rtp-v1\n"[i] as int
  }

  // The most significant of four bytes first.
  function Length(bytes: seq<Byte>): int
    requires |bytes| >= 4
  {
    ((bytes[0] as int * 256 + bytes[1] as int) * 256 + bytes[2] as int) * 256 + bytes[3] as int
  }

  // A length, then that many bytes.
  predicate IsPrefixed(bytes: seq<Byte>, chunk: seq<Byte>) {
    |bytes| == 4 + |chunk| && bytes[4..] == chunk && |chunk| == Length(bytes)
  }

  // Lengths from 1 to 65536.
  predicate IsChunk(chunk: seq<Byte>) {
    1 <= |chunk| <= 65536
  }

  // Chunks, each behind its length, and then the rest.
  ghost predicate StartsWith(data: seq<Byte>, chunks: seq<seq<Byte>>, rest: seq<Byte>)
    decreases |chunks|
  {
    if chunks == [] then data == rest else
    var n := 4 + |chunks[0]|;
    && IsChunk(chunks[0]) && n <= |data| && IsPrefixed(data[..n], chunks[0])
    && StartsWith(data[n..], chunks[1..], rest)
  }

  // What is wrong where no further packet can be read; nothing, if nothing is left.
  ghost predicate HasDefect<P>(codec: Codec<P>, rest: seq<Byte>, defect: Outcome) {
    if rest == [] then defect == Finished
    else if |rest| < 4 then defect == LengthUnreadable
    else
      var size := Length(rest);
      if size == 0 || size > 65536 then defect == LengthInvalid
      else if |rest| < 4 + size then defect == PacketUnreadable
      else codec.unmarshal(rest[4..4 + size]).None? && defect == PacketUndecodable
  }

  datatype Parse<P> = Parse(chunks: seq<seq<Byte>>, packets: seq<P>, rest: seq<Byte>, defect: Outcome)

  // Chunks that decode to packets, up to the first defect or the end.
  ghost predicate IsParse<P>(codec: Codec<P>, data: seq<Byte>, p: Parse<P>) {
    && |p.chunks| == |p.packets|
    && (forall i | 0 <= i < |p.chunks| :: codec.unmarshal(p.chunks[i]) == Some(p.packets[i]))
    && StartsWith(data, p.chunks, p.rest)
    && HasDefect(codec, p.rest, p.defect)
  }

  //
  // Every byte string has exactly one such reading.
  //

  lemma ParseRest<P>(codec: Codec<P>, data: seq<Byte>, chunk: seq<Byte>, packet: P, p: Parse<P>)
    requires IsChunk(chunk) && 4 + |chunk| <= |data| && IsPrefixed(data[..4 + |chunk|], chunk)
    requires codec.unmarshal(chunk) == Some(packet) && IsParse(codec, data[4 + |chunk|..], p)
    ensures IsParse(codec, data, Parse([chunk] + p.chunks, [packet] + p.packets, p.rest, p.defect))
  {
    assert ([chunk] + p.chunks)[1..] == p.chunks;
  }

  lemma ParseStep<P>(codec: Codec<P>, data: seq<Byte>, p: Parse<P>)
    requires IsParse(codec, data, p) && p.chunks != []
    ensures var n := 4 + |p.chunks[0]|;
            && n <= |data| && IsPrefixed(data[..n], p.chunks[0]) && IsChunk(p.chunks[0])
            && codec.unmarshal(p.chunks[0]) == Some(p.packets[0])
            && IsParse(codec, data[n..], Parse(p.chunks[1..], p.packets[1..], p.rest, p.defect))
  {
  }

  lemma PrefixIsSize(data: seq<Byte>, chunk: seq<Byte>)
    requires 4 + |chunk| <= |data| && IsPrefixed(data[..4 + |chunk|], chunk)
    ensures ReadBigEndian32(data[..4]) == |chunk| && data[4..4 + |chunk|] == chunk
  {
    assert data[..4 + |chunk|][4..] == data[4..4 + |chunk|];
  }

  lemma ChunkAt(data: seq<Byte>)
    requires |data| >= 4 && 4 + ReadBigEndian32(data[..4]) <= |data|
    ensures var size := ReadBigEndian32(data[..4]); IsPrefixed(data[..4 + size], data[4..4 + size])
  {
    var size := ReadBigEndian32(data[..4]);
    assert data[..4 + size][4..] == data[4..4 + size];
  }

  // The loop goes on exactly where the reading does.
  lemma NextIsChunk<P>(codec: Codec<P>, data: seq<Byte>)
    ensures match NextPacket(codec, data)
            case End(outcome) => HasDefect(codec, data, outcome)
            case Got(packet, rest) =>
              var size := |data| - |rest| - 4;
              && 1 <= size <= 65536
              && IsPrefixed(data[..4 + size], data[4..4 + size])
              && codec.unmarshal(data[4..4 + size]) == Some(packet)
              && rest == data[4 + size..]
  {
    if |data| >= 4 && 4 + ReadBigEndian32(data[..4]) <= |data| {
      ChunkAt(data);
    }
  }

  lemma {:induction false} ParseExists<P>(codec: Codec<P>, data: seq<Byte>)
    ensures exists p: Parse<P> :: IsParse(codec, data, p)
    decreases |data|
  {
    NextIsChunk(codec, data);
    var next := NextPacket(codec, data);
    if next.End? {
      assert IsParse(codec, data, Parse([], [], data, next.outcome));
    } else {
      ParseExists(codec, next.rest);
      var p: Parse<P> :| IsParse(codec, next.rest, p);
      var size := |data| - |next.rest| - 4;
      ParseRest(codec, data, data[4..4 + size], next.packet, p);
    }
  }

  lemma GoodIsNoDefect<P>(codec: Codec<P>, data: seq<Byte>, p: Parse<P>, defect: Outcome)
    requires IsParse(codec, data, p) && p.chunks != []
    ensures !HasDefect(codec, data, defect)
  {
    ParseStep(codec, data, p);
    PrefixIsSize(data, p.chunks[0]);
  }

  lemma SameFirst<T>(a: seq<T>, b: seq<T>)
    requires a != [] && b != [] && a[0] == b[0] && a[1..] == b[1..]
    ensures a == b
  {
    assert a == [a[0]] + a[1..] && b == [b[0]] + b[1..];
  }

  lemma {:induction false} ParseIsUnique<P>(codec: Codec<P>, data: seq<Byte>, p: Parse<P>, q: Parse<P>)
    requires IsParse(codec, data, p) && IsParse(codec, data, q)
    ensures p == q
    decreases |data|
  {
    if p.chunks != [] && q.chunks != [] {
      ParseStep(codec, data, p);
      ParseStep(codec, data, q);
      PrefixIsSize(data, p.chunks[0]);
      PrefixIsSize(data, q.chunks[0]);
      var n := 4 + |p.chunks[0]|;
      var p', q' := Parse(p.chunks[1..], p.packets[1..], p.rest, p.defect),
                    Parse(q.chunks[1..], q.packets[1..], q.rest, q.defect);
      ParseIsUnique(codec, data[n..], p', q');
      SameFirst(p.chunks, q.chunks);
      SameFirst(p.packets, q.packets);
    } else if p.chunks != [] {
      GoodIsNoDefect(codec, data, p, q.defect);
    } else if q.chunks != [] {
      GoodIsNoDefect(codec, data, q, p.defect);
    } else {
      assert p.packets == [] && q.packets == [];
    }
  }

  //
  // The replay delivers that reading.
  //

  lemma NextOfGood<P>(codec: Codec<P>, data: seq<Byte>, chunk: seq<Byte>, packet: P)
    requires IsChunk(chunk) && 4 + |chunk| <= |data| && IsPrefixed(data[..4 + |chunk|], chunk)
    requires codec.unmarshal(chunk) == Some(packet)
    ensures NextPacket(codec, data) == Got(packet, data[4 + |chunk|..])
  {
    PrefixIsSize(data, chunk);
  }

  lemma ReplayStep<P, S>(
    codec: Codec<P>, consume: (S, P) -> (S, bool), data: seq<Byte>, s: S, chunk: seq<Byte>, packet: P)
    requires IsChunk(chunk) && 4 + |chunk| <= |data| && IsPrefixed(data[..4 + |chunk|], chunk)
    requires codec.unmarshal(chunk) == Some(packet)
    ensures var next := consume(s, packet);
            ReplayRecords(codec, consume, data, s)
            == if next.1 then ReplayRecords(codec, consume, data[4 + |chunk|..], next.0)
               else Replayed(next.0, ConsumerFailed)
  {
    NextOfGood(codec, data, chunk, packet);
  }

  lemma ReplayEnds<P, S>(codec: Codec<P>, consume: (S, P) -> (S, bool), data: seq<Byte>, s: S, defect: Outcome)
    requires HasDefect(codec, data, defect)
    ensures ReplayRecords(codec, consume, data, s) == Replayed(s, defect)
  {
  }

  lemma {:induction false} ReplayIsParse<P, S>(
    codec: Codec<P>, consume: (S, P) -> (S, bool), data: seq<Byte>, s: S, p: Parse<P>)
    requires IsParse(codec, data, p)
    ensures var live := Live(consume, p.packets, s);
            ReplayRecords(codec, consume, data, s)
            == Replayed(live.0, if live.1 then p.defect else ConsumerFailed)
    decreases |p.chunks|
  {
    if p.chunks != [] {
      ParseStep(codec, data, p);
      ReplayStep(codec, consume, data, s, p.chunks[0], p.packets[0]);
      var next := consume(s, p.packets[0]);
      if next.1 {
        var n := 4 + |p.chunks[0]|;
        ReplayIsParse(codec, consume, data[n..], next.0, Parse(p.chunks[1..], p.packets[1..], p.rest, p.defect));
      }
    } else {
      ReplayEnds(codec, consume, data, s, p.defect);
    }
  }

  // Any bytes: too few for a header, another header, or chunks up to the first defect. The consumer
  // gets exactly the packets before that defect, and the outcome names it.
  lemma ReplayExactly<P, S>(codec: Codec<P>, consume: (S, P) -> (S, bool), data: seq<Byte>, s: S)
    ensures |data| < 15 ==> Replay(codec, consume, data, s) == Replayed(s, HeaderUnreadable)
    ensures |data| >= 15 && !HasHeader(data) ==> Replay(codec, consume, data, s) == Replayed(s, HeaderInvalid)
    ensures HasHeader(data) ==>
              exists p: Parse<P> ::
                && IsParse(codec, data[15..], p)
                && var live := Live(consume, p.packets, s);
                   Replay(codec, consume, data, s)
                   == Replayed(live.0, if live.1 then p.defect else ConsumerFailed)
  {
    if HasHeader(data) {
      ParseExists(codec, data[15..]);
      var p: Parse<P> :| IsParse(codec, data[15..], p);
      ReplayIsParse(codec, consume, data[15..], s, p);
    }
  }

  // A whole recording of packets that the consumer takes.
  ghost predicate IsGoodFor<P, S>(
    codec: Codec<P>, consume: (S, P) -> (S, bool), data: seq<Byte>, s: S, p: Parse<P>)
  {
    && HasHeader(data)
    && IsParse(codec, data[15..], p) && p.rest == [] && Live(consume, p.packets, s).1
  }

  // The replay succeeds exactly on the magic followed by nothing but whole good records, all taken.
  lemma ReplaySucceedsExactly<P, S>(codec: Codec<P>, consume: (S, P) -> (S, bool), data: seq<Byte>, s: S)
    ensures Replay(codec, consume, data, s).outcome == Finished <==>
            exists p: Parse<P> :: IsGoodFor(codec, consume, data, s, p)
  {
    ReplayExactly(codec, consume, data, s);
    if Replay(codec, consume, data, s).outcome == Finished {
      ParseExists(codec, data[15..]);
      var p: Parse<P> :| IsParse(codec, data[15..], p);
      ReplayIsParse(codec, consume, data[15..], s, p);
      assert IsGoodFor(codec, consume, data, s, p);
    }
    if exists p: Parse<P> :: IsGoodFor(codec, consume, data, s, p) {
      var p: Parse<P> :| IsGoodFor(codec, consume, data, s, p);
      ReplayIsParse(codec, consume, data[15..], s, p);
    }
  }

  //
  // The format itself.
  //

  // What WritePacket adds is one chunk behind its length.
  lemma RecordIsPrefixed(data: seq<Byte>)
    requires |data| <= MAX_RECORDED_PACKET
    ensures IsPrefixed(Record(data), data)
  {
    assert |data| == 0x10000 || |data| / 0x1_0000 == 0;
  }
}
