/**
 The RTP recording of cmd/go-ring/rtp_recording.go: a magic line, then length-prefixed packets, and
 the replay that reads them back. The RTP packet codec and the consumer of replayed packets are
 parameters.
 */
module RtpRecording {
  import opened Wire

  // "go-ring-rtp-v1" and a newline.
  const MAGIC: seq<Byte> := [103, 111, 45, 114, 105, 110, 103, 45, 114, 116, 112, 45, 118, 49, 10]
  const MAX_RECORDED_PACKET: nat := 0x1_0000

  datatype Codec<!P> = Codec(marshal: P -> Option<seq<Byte>>, unmarshal: seq<Byte> -> Option<P>)

  function BigEndian32(n: nat): (s: seq<Byte>)
    requires n < 0x1_0000_0000
    ensures |s| == 4
  {
    [n / 0x100_0000, n / 0x1_0000 % 0x100, n / 0x100 % 0x100, n % 0x100]
  }

  function ReadBigEndian32(s: seq<Byte>): nat
    requires |s| == 4
  {
    0x100_0000 * (s[0] as nat) + 0x1_0000 * (s[1] as nat) + 0x100 * (s[2] as nat) + s[3] as nat
  }

  function Record(data: seq<Byte>): seq<Byte>
    requires |data| <= MAX_RECORDED_PACKET
  {
    BigEndian32(|data|) + data
  }

  //
  // Writing.
  //

  class Recording<P> {
    const codec: Codec<P>
    var file: seq<Byte>
    var buffered: seq<Byte>

    // The magic waits in the buffer until the first packet or Close.
    constructor (codec: Codec<P>)
      ensures this.codec == codec && file == [] && buffered == MAGIC
    {
      this.codec := codec;
      file, buffered := [], MAGIC;
    }

    method Flush()
      modifies this
      ensures file == old(file + buffered) && buffered == []
    {
      file, buffered := file + buffered, [];
    }

    // A packet that cannot be marshalled or is too long leaves the recording as it was. Any other
    // is in the file, whole, when the call returns.
    method WritePacket(p: P) returns (err: bool)
      modifies this
      ensures err == (codec.marshal(p).None? || |codec.marshal(p).value| > MAX_RECORDED_PACKET)
      ensures err ==> file == old(file) && buffered == old(buffered)
      ensures !err ==> file == old(file + buffered) + Record(codec.marshal(p).value) && buffered == []
    {
      var data := codec.marshal(p);
      if data.None? || |data.value| > MAX_RECORDED_PACKET {
        return true;
      }
      buffered := buffered + BigEndian32(|data.value|);
      buffered := buffered + data.value;
      Flush();
      return false;
    }
  }

  // A packet the codec gives back, short enough to record.
  ghost predicate IsRecordable<P>(codec: Codec<P>, p: P) {
    && codec.marshal(p).Some?
    && 1 <= |codec.marshal(p).value| <= MAX_RECORDED_PACKET
    && codec.unmarshal(codec.marshal(p).value) == Some(p)
  }

  ghost predicate AllRecordable<P>(codec: Codec<P>, ps: seq<P>) {
    forall i | 0 <= i < |ps| :: IsRecordable(codec, ps[i])
  }

  ghost function Records<P>(codec: Codec<P>, ps: seq<P>): seq<Byte>
    requires AllRecordable(codec, ps)
  {
    if ps == [] then [] else
    assert IsRecordable(codec, ps[0]) && forall i | 0 <= i < |ps[1..]| :: ps[1..][i] == ps[i + 1];
    Record(codec.marshal(ps[0]).value) + Records(codec, ps[1..])
  }

  ghost function File<P>(codec: Codec<P>, ps: seq<P>): seq<Byte>
    requires AllRecordable(codec, ps)
  {
    MAGIC + Records(codec, ps)
  }

  lemma {:induction false} RecordsAppend<P>(codec: Codec<P>, ps: seq<P>, p: P)
    requires AllRecordable(codec, ps) && IsRecordable(codec, p)
    ensures AllRecordable(codec, ps + [p])
    ensures Records(codec, ps + [p]) == Records(codec, ps) + Record(codec.marshal(p).value)
  {
    if ps == [] {
      assert ps + [p] == [p] && Records(codec, [p][1..]) == [];
    } else {
      forall i | 0 <= i < |ps[1..]|
        ensures IsRecordable(codec, ps[1..][i])
      {
        assert ps[1..][i] == ps[i + 1];
      }
      RecordsAppend(codec, ps[1..], p);
      assert (ps + [p])[1..] == ps[1..] + [p];
    }
  }

  // Recording packet after packet makes exactly that file.
  method RecordAll<P>(codec: Codec<P>, ps: seq<P>) returns (r: Recording<P>)
    requires AllRecordable(codec, ps)
    ensures fresh(r) && r.codec == codec
    ensures r.file + r.buffered == File(codec, ps)
    ensures ps != [] ==> r.file == File(codec, ps)
  {
    r := new Recording(codec);
    assert ps[..0] == [];
    for i := 0 to |ps|
      invariant fresh(r) && r.codec == codec
      invariant AllRecordable(codec, ps[..i])
      invariant r.file + r.buffered == File(codec, ps[..i]) && (i > 0 ==> r.buffered == [])
    {
      RecordsAppend(codec, ps[..i], ps[i]);
      assert ps[..i + 1] == ps[..i] + [ps[i]];
      var err := r.WritePacket(ps[i]);
    }
    assert ps[..|ps|] == ps;
  }

  //
  // Replaying.
  //

  datatype Outcome =
    | Finished
    | HeaderUnreadable
    | HeaderInvalid
    | LengthUnreadable
    | LengthInvalid
    | PacketUnreadable
    | PacketUndecodable
    | ConsumerFailed

  datatype Replayed<S> = Replayed(state: S, outcome: Outcome)

  datatype Next<P> = End(outcome: Outcome) | Got(packet: P, rest: seq<Byte>)

  // One turn of the replay loop up to the consumer. A file that ends between records ends cleanly.
  function NextPacket<P>(codec: Codec<P>, data: seq<Byte>): (next: Next<P>)
    ensures next.Got? ==> |next.rest| < |data|
  {
    if data == [] then End(Finished)
    else if |data| < 4 then End(LengthUnreadable) else
    var size := ReadBigEndian32(data[..4]);
    if size == 0 || size > MAX_RECORDED_PACKET then End(LengthInvalid)
    else if |data| < 4 + size then End(PacketUnreadable) else
    var p := codec.unmarshal(data[4..4 + size]);
    if p.None? then End(PacketUndecodable) else Got(p.value, data[4 + size..])
  }

  ghost function ReplayRecords<P, S>(codec: Codec<P>, consume: (S, P) -> (S, bool), data: seq<Byte>, s: S): Replayed<S>
    decreases |data|
  {
    match NextPacket(codec, data)
    case End(outcome) => Replayed(s, outcome)
    case Got(p, rest) =>
      var next := consume(s, p);
      if !next.1 then Replayed(next.0, ConsumerFailed) else ReplayRecords(codec, consume, rest, next.0)
  }

  ghost function Replay<P, S>(codec: Codec<P>, consume: (S, P) -> (S, bool), data: seq<Byte>, s: S): Replayed<S> {
    if |data| < |MAGIC| then Replayed(s, HeaderUnreadable)
    else if data[..|MAGIC|] != MAGIC then Replayed(s, HeaderInvalid)
    else ReplayRecords(codec, consume, data[|MAGIC|..], s)
  }

  // The consumer fed directly, up to its first failure.
  ghost function Live<P, S>(consume: (S, P) -> (S, bool), ps: seq<P>, s: S): (S, bool) {
    if ps == [] then (s, true) else
    var next := consume(s, ps[0]);
    if !next.1 then next else Live(consume, ps[1..], next.0)
  }

  // How many whole records fit into k bytes.
  ghost function Fitting<P>(codec: Codec<P>, ps: seq<P>, k: nat): (n: nat)
    requires AllRecordable(codec, ps)
    ensures n <= |ps|
  {
    if ps == [] then 0 else
    assert IsRecordable(codec, ps[0]) && forall i | 0 <= i < |ps[1..]| :: ps[1..][i] == ps[i + 1];
    var first := |Record(codec.marshal(ps[0]).value)|;
    if k < first then 0 else 1 + Fitting(codec, ps[1..], k - first)
  }

  ghost predicate IsBoundary<P>(codec: Codec<P>, ps: seq<P>, k: nat)
    requires AllRecordable(codec, ps)
  {
    exists m: nat :: m <= |ps| && k == |Records(codec, ps[..m])|
  }

  lemma BigEndianRoundTrip(n: nat)
    requires n < 0x1_0000_0000
    ensures ReadBigEndian32(BigEndian32(n)) == n
  {
    assert n / 0x100 == 0x100 * (n / 0x1_0000) + n / 0x100 % 0x100;
    assert n / 0x1_0000 == 0x100 * (n / 0x100_0000) + n / 0x1_0000 % 0x100;
  }

  lemma FirstRecord<P>(codec: Codec<P>, ps: seq<P>, n: nat)
    requires AllRecordable(codec, ps) && 1 <= n <= |ps|
    ensures AllRecordable(codec, ps[1..]) && IsRecordable(codec, ps[0])
    ensures |Records(codec, ps[..n])| == 4 + |codec.marshal(ps[0]).value| + |Records(codec, ps[1..][..n - 1])|
    ensures Records(codec, ps) == Record(codec.marshal(ps[0]).value) + Records(codec, ps[1..])
  {
    assert IsRecordable(codec, ps[0]) && forall i | 0 <= i < |ps[1..]| :: ps[1..][i] == ps[i + 1];
    assert ps[..n][1..] == ps[1..][..n - 1];
  }

  lemma BoundaryStep<P>(codec: Codec<P>, ps: seq<P>, k: nat)
    requires AllRecordable(codec, ps) && ps != []
    ensures AllRecordable(codec, ps[1..]) && IsRecordable(codec, ps[0])
    ensures var first := 4 + |codec.marshal(ps[0]).value|;
            IsBoundary(codec, ps, k) <==> k == 0 || (k >= first && IsBoundary(codec, ps[1..], k - first))
  {
    FirstRecord(codec, ps, 1);
    var first := 4 + |codec.marshal(ps[0]).value|;
    assert ps[..0] == [] && |Records(codec, ps[..0])| == 0;
    if IsBoundary(codec, ps, k) {
      var m: nat :| m <= |ps| && k == |Records(codec, ps[..m])|;
      if m > 0 {
        FirstRecord(codec, ps, m);
      }
    }
    if k >= first && IsBoundary(codec, ps[1..], k - first) {
      var m: nat :| m <= |ps[1..]| && k - first == |Records(codec, ps[1..][..m])|;
      FirstRecord(codec, ps, m + 1);
    }
  }

  // The first n records end at or before k, the next one does not, and k is a record boundary only
  // if they end at k.
  ghost predicate FitsExactly<P>(codec: Codec<P>, ps: seq<P>, k: nat, n: nat)
    requires AllRecordable(codec, ps)
  {
    && n <= |ps|
    && |Records(codec, ps[..n])| <= k
    && (n < |ps| ==> |Records(codec, ps[..n + 1])| > k)
    && (IsBoundary(codec, ps, k) <==> k == |Records(codec, ps[..n])|)
  }

  lemma FitsOneMore<P>(codec: Codec<P>, ps: seq<P>, k: nat, n: nat)
    requires ps != [] && AllRecordable(codec, ps) && AllRecordable(codec, ps[1..]) && IsRecordable(codec, ps[0])
    requires var first := 4 + |codec.marshal(ps[0]).value|;
             k >= first && FitsExactly(codec, ps[1..], k - first, n)
    ensures FitsExactly(codec, ps, k, n + 1)
  {
    BoundaryStep(codec, ps, k);
    FirstRecord(codec, ps, n + 1);
    if n + 1 < |ps| {
      FirstRecord(codec, ps, n + 2);
    }
  }

  lemma NoneFits<P>(codec: Codec<P>, ps: seq<P>, k: nat)
    requires AllRecordable(codec, ps) && ps != [] && IsRecordable(codec, ps[0])
    requires k < 4 + |codec.marshal(ps[0]).value|
    ensures FitsExactly(codec, ps, k, 0)
  {
  }

  lemma {:induction false} FittingMeaning<P>(codec: Codec<P>, ps: seq<P>, k: nat)
    requires AllRecordable(codec, ps)
    ensures FitsExactly(codec, ps, k, Fitting(codec, ps, k))
    decreases |ps|
  {
    if ps == [] {
      assert ps[..0] == [];
    } else {
      FirstRecord(codec, ps, 1);
      var first := 4 + |codec.marshal(ps[0]).value|;
      if k >= first {
        FittingMeaning(codec, ps[1..], k - first);
        FitsOneMore(codec, ps, k, Fitting(codec, ps[1..], k - first));
      } else {
        NoneFits(codec, ps, k);
      }
    }
  }

  // Replaying k bytes of records: exactly the fitting packets are consumed, in order, up to the
  // consumer's first failure, and without one the end is clean exactly at a boundary.
  ghost predicate CutMeaning<P, S>(
    consume: (S, P) -> (S, bool), fitting: seq<P>, s: S, atBoundary: bool, r: Replayed<S>)
  {
    var live := Live(consume, fitting, s);
    && r.state == live.0
    && (!live.1 ==> r.outcome == ConsumerFailed)
    && (live.1 ==> (r.outcome == Finished <==> atBoundary))
    && (live.1 ==> r.outcome in {Finished, LengthUnreadable, PacketUnreadable})
  }

  lemma ReplayCutRecord<P, S>(codec: Codec<P>, consume: (S, P) -> (S, bool), p: P, rest: seq<Byte>, k: nat, s: S)
    requires IsRecordable(codec, p) && k < 4 + |codec.marshal(p).value|
    ensures var data := Record(codec.marshal(p).value) + rest;
            CutMeaning(consume, [], s, k == 0, ReplayRecords(codec, consume, data[..k], s))
  {
    var bytes := codec.marshal(p).value;
    var data := Record(bytes) + rest;
    BigEndianRoundTrip(|bytes|);
    if k >= 4 {
      assert data[..k][..4] == BigEndian32(|bytes|);
    }
  }

  lemma ReplayOneRecord<P, S>(codec: Codec<P>, consume: (S, P) -> (S, bool), p: P, rest: seq<Byte>, s: S)
    requires IsRecordable(codec, p)
    ensures var next := consume(s, p);
            ReplayRecords(codec, consume, Record(codec.marshal(p).value) + rest, s)
            == if next.1 then ReplayRecords(codec, consume, rest, next.0) else Replayed(next.0, ConsumerFailed)
  {
    var bytes := codec.marshal(p).value;
    var data := Record(bytes) + rest;
    BigEndianRoundTrip(|bytes|);
    assert data[..4] == BigEndian32(|bytes|);
    assert data[4..4 + |bytes|] == bytes && data[4 + |bytes|..] == rest;
  }

  lemma {:induction false} ReplayCutRecords<P, S>(
    codec: Codec<P>, consume: (S, P) -> (S, bool), ps: seq<P>, k: nat, s: S)
    requires AllRecordable(codec, ps) && k <= |Records(codec, ps)|
    ensures var n := Fitting(codec, ps, k);
            CutMeaning(consume, ps[..n], s, k == |Records(codec, ps[..n])|,
              ReplayRecords(codec, consume, Records(codec, ps)[..k], s))
    decreases |ps|
  {
    if ps == [] {
      assert ps[..0] == [] && Records(codec, ps)[..k] == [];
    } else {
      FirstRecord(codec, ps, 1);
      var bytes := codec.marshal(ps[0]).value;
      var rest := Records(codec, ps[1..]);
      var first := 4 + |bytes|;
      if k < first {
        ReplayCutRecord(codec, consume, ps[0], rest, k, s);
        assert ps[..0] == [];
      } else {
        var n := Fitting(codec, ps, k);
        var next := consume(s, ps[0]);
        assert Records(codec, ps)[..k] == Record(bytes) + rest[..k - first];
        ReplayOneRecord(codec, consume, ps[0], rest[..k - first], s);
        ReplayCutRecords(codec, consume, ps[1..], k - first, next.0);
        FirstRecord(codec, ps, n);
        assert ps[..n][1..] == ps[1..][..n - 1] && ps[..n][0] == ps[0];
      }
    }
  }

  lemma CutBehindMagic(records: seq<Byte>, k: nat)
    requires |MAGIC| <= k <= |MAGIC + records|
    ensures var cut := (MAGIC + records)[..k];
            cut[..|MAGIC|] == MAGIC && cut[|MAGIC|..] == records[..k - |MAGIC|]
  {
  }

  // Replaying the first k bytes of a recording.
  lemma ReplayOfCut<P, S>(codec: Codec<P>, consume: (S, P) -> (S, bool), ps: seq<P>, k: nat, s: S)
    requires AllRecordable(codec, ps) && k <= |File(codec, ps)|
    ensures var r := Replay(codec, consume, File(codec, ps)[..k], s);
            if k < |MAGIC| then r == Replayed(s, HeaderUnreadable)
            else
              var n := Fitting(codec, ps, k - |MAGIC|);
              CutMeaning(consume, ps[..n], s, IsBoundary(codec, ps, k - |MAGIC|), r)
  {
    if k >= |MAGIC| {
      CutBehindMagic(Records(codec, ps), k);
      FittingMeaning(codec, ps, k - |MAGIC|);
      ReplayCutRecords(codec, consume, ps, k - |MAGIC|, s);
    }
  }

  // Replaying the whole recording is the live run.
  lemma ReplayOfWhole<P, S>(codec: Codec<P>, consume: (S, P) -> (S, bool), ps: seq<P>, s: S)
    requires AllRecordable(codec, ps)
    ensures var live := Live(consume, ps, s);
            Replay(codec, consume, File(codec, ps), s) == Replayed(live.0, if live.1 then Finished else ConsumerFailed)
  {
    var k := |File(codec, ps)|;
    assert File(codec, ps)[..k] == File(codec, ps);
    assert ps[..|ps|] == ps;
    ReplayOfCut(codec, consume, ps, k, s);
    FittingMeaning(codec, ps, k - |MAGIC|);
    var n := Fitting(codec, ps, k - |MAGIC|);
    assert IsBoundary(codec, ps, k - |MAGIC|);
    if n < |ps| {
      RecordsGrow(codec, ps, n + 1);
    }
  }

  lemma {:induction false} RecordsGrow<P>(codec: Codec<P>, ps: seq<P>, n: nat)
    requires AllRecordable(codec, ps) && n <= |ps|
    ensures |Records(codec, ps[..n])| <= |Records(codec, ps)|
    decreases n
  {
    if n > 0 {
      FirstRecord(codec, ps, n);
      RecordsGrow(codec, ps[1..], n - 1);
    } else {
      assert ps[..0] == [];
    }
  }

  ghost function Delivery<P>(): (seq<P>, P) -> (seq<P>, bool) {
    (got: seq<P>, p: P) => (got + [p], true)
  }

  lemma {:induction false} LiveDelivery<P>(ps: seq<P>, got: seq<P>)
    ensures Live(Delivery(), ps, got) == (got + ps, true)
    decreases |ps|
  {
    if ps == [] {
      assert got + ps == got;
    } else {
      LiveDelivery(ps[1..], got + [ps[0]]);
      assert got + [ps[0]] + ps[1..] == got + ps;
    }
  }

  // The packets delivered from the first k bytes are exactly those whose records fit, in order,
  // and the replay succeeds exactly if k is a record boundary at or behind the magic.
  lemma ReplayDeliversWhatFits<P>(codec: Codec<P>, ps: seq<P>, k: nat)
    requires AllRecordable(codec, ps) && k <= |File(codec, ps)|
    ensures var r := Replay(codec, Delivery(), File(codec, ps)[..k], []);
            && r.state == ps[..if k < |MAGIC| then 0 else Fitting(codec, ps, k - |MAGIC|)]
            && (r.outcome == Finished <==> k >= |MAGIC| && IsBoundary(codec, ps, k - |MAGIC|))
  {
    ReplayOfCut(codec, Delivery(), ps, k, []);
    if k >= |MAGIC| {
      var fitting := ps[..Fitting(codec, ps, k - |MAGIC|)];
      LiveDelivery(fitting, []);
      assert [] + fitting == fitting;
    }
  }
}
