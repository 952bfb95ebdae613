/** Gate schedule (QBV) messages for the two hardware versions: the set path builds a packed
    payload, the get path reads one back from a fixed-size reply. */
module QbvCodec {
  import opened Basics
  import opened WireFormat

  const NUM_QUEUES: nat := 8
  const NUM_QUEUES_V2: nat := 7
  const NUM_STREAMS: nat := 16        // two per queue, queue by queue
  const ETHER_ADDR_LEN: nat := 6
  const REPLY_ENTRIES: nat := 32
  const SIZE_V2: nat := 29
  const SIZE_V3: nat := 278
  const GCL_SIZE: nat := 5
  const STREAM_SIZE: nat := 15
  const SET_QBV: byte := 4
  const SET_QBV_V3: byte := 15

  datatype StreamId = StreamId(mask: byte, da: seq<byte>, vid: u16, pcp: byte, frer: byte)

  datatype GateEntry = GateEntry(interval: u32, gateState: byte)

  /** The control list length is that of the list. */
  datatype QbvConf = QbvConf(initialGateState: byte, priorityEnable: byte, gateEnable: byte,
                             priorityQueueEnable: byte, prios: seq<byte>, streams: seq<StreamId>,
                             cycleTime: u64, basetimeSec: u64, basetimeNsec: u32, basetimeAdjust: byte,
                             streamidReset: u32, gcl: seq<GateEntry>)

  /** The fixed array sizes, and a list length that fits its byte. */
  ghost predicate Valid(c: QbvConf) {
    && |c.prios| == NUM_QUEUES && |c.streams| == NUM_STREAMS && |c.gcl| < 256
    && forall i :: 0 <= i < NUM_STREAMS ==> |c.streams[i].da| == ETHER_ADDR_LEN
  }

  datatype Request = Message(command: byte, size: u16, payload: seq<byte>) | NotSupported

  // ----- layouts

  function StreamRecord(s: StreamId): (r: seq<byte>)
    requires |s.da| == ETHER_ADDR_LEN
    ensures |r| == STREAM_SIZE
  {
    [s.mask, 0] + s.da + [0] + ToBe(s.vid, 2) + [s.pcp, s.frer] + Zeros(2)
  }

  function GateRecord(g: GateEntry): (r: seq<byte>)
    ensures |r| == GCL_SIZE
  {
    ToBe(g.interval, 4) + [g.gateState]
  }

  function StreamRecords(c: QbvConf): seq<seq<byte>>
    requires Valid(c)
  {
    seq(NUM_STREAMS, i requires 0 <= i < NUM_STREAMS => StreamRecord(c.streams[i]))
  }

  function GateRecords(c: QbvConf): seq<seq<byte>> {
    seq(|c.gcl|, i requires 0 <= i < |c.gcl| => GateRecord(c.gcl[i]))
  }

  function Switches(c: QbvConf): seq<byte> {
    [c.initialGateState, c.priorityEnable, c.gateEnable, c.priorityQueueEnable]
  }

  function FieldsV3(c: QbvConf): seq<seq<byte>>
    requires Valid(c)
  {
    [Switches(c), c.prios, Join(StreamRecords(c)), [|c.gcl|], ToBe(c.cycleTime, 8), ToBe(c.basetimeSec, 8),
     ToBe(c.basetimeNsec, 4), [c.basetimeAdjust], ToBe(c.streamidReset, 4), Join(GateRecords(c))]
  }

  function FieldsV2(c: QbvConf): seq<seq<byte>>
    requires Valid(c)
  {
    [Switches(c), c.prios[..NUM_QUEUES_V2], [|c.gcl|], ToBe(c.cycleTime % 0x1_0000_0000, 4), ToBe(c.basetimeSec, 8),
     ToBe(c.basetimeNsec, 4), [c.basetimeAdjust], Join(GateRecords(c))]
  }

  function EncodeV3(c: QbvConf): seq<byte>
    requires Valid(c)
  {
    Join(FieldsV3(c))
  }

  function EncodeV2(c: QbvConf): seq<byte>
    requires Valid(c)
  {
    Join(FieldsV2(c))
  }

  // ----- readers, by byte offset

  function ReadStream(s: seq<byte>, at: nat): StreamId
    requires at + STREAM_SIZE <= |s|
  {
    StreamId(s[at], s[at + 2..at + 8], Number16(s, at + 9), s[at + 11], s[at + 12])
  }

  function ReadGate(s: seq<byte>, at: nat): GateEntry
    requires at + GCL_SIZE <= |s|
  {
    GateEntry(Number32(s, at), s[at + 4])
  }

  /** A message whose list is as long as its length byte says; anything may follow. */
  ghost predicate WholeV3(s: seq<byte>) {
    |s| >= SIZE_V3 && |s| >= SIZE_V3 + GCL_SIZE * s[252]
  }

  ghost predicate WholeV2(s: seq<byte>) {
    |s| >= SIZE_V2 && |s| >= SIZE_V2 + GCL_SIZE * s[11]
  }

  /** The reply buffer of the get path has room for 32 entries. */
  ghost predicate IsReplyV3(s: seq<byte>) {
    |s| == SIZE_V3 + GCL_SIZE * REPLY_ENTRIES && s[252] <= REPLY_ENTRIES
  }

  ghost predicate IsReplyV2(s: seq<byte>) {
    |s| == SIZE_V2 + GCL_SIZE * REPLY_ENTRIES && s[11] <= REPLY_ENTRIES
  }

  function DecodeV3(s: seq<byte>): QbvConf
    requires WholeV3(s)
  {
    QbvConf(s[0], s[1], s[2], s[3], s[4..12],
            seq(NUM_STREAMS, i requires 0 <= i < NUM_STREAMS => ReadStream(s, 12 + STREAM_SIZE * i)),
            Number64(s, 253), Number64(s, 261), Number32(s, 269), s[273], Number32(s, 274),
            seq(s[252], i requires 0 <= i < s[252] => ReadGate(s, SIZE_V3 + GCL_SIZE * i)))
  }

  const NO_STREAM: StreamId := StreamId(0, Zeros(ETHER_ADDR_LEN), 0, 0, 0)

  /** Fields without a place in the older layout are zero. */
  function DecodeV2(s: seq<byte>): QbvConf
    requires WholeV2(s)
  {
    QbvConf(s[0], s[1], s[2], s[3], s[4..11] + [0], seq(NUM_STREAMS, _ => NO_STREAM),
            Number32(s, 12), Number64(s, 16), Number32(s, 24), s[28], 0,
            seq(s[11], i requires 0 <= i < s[11] => ReadGate(s, SIZE_V2 + GCL_SIZE * i)))
  }

  // ----- fields lie where the readers look

  lemma StreamReads(s: seq<byte>, at: nat, stream: StreamId)
    requires |stream.da| == ETHER_ADDR_LEN && At(s, at, StreamRecord(stream))
    ensures ReadStream(s, at) == stream
  {
    var r := StreamRecord(stream);
    NumberFields();
    assert forall k :: 0 <= k < STREAM_SIZE ==> s[at + k] == r[k] by {
      forall k | 0 <= k < STREAM_SIZE
        ensures s[at + k] == r[k]
      {
        assert s[at..at + STREAM_SIZE][k] == s[at + k];
      }
    }
    assert s[at + 2..at + 8] == r[2..8] == stream.da;
    assert s[at + 9..at + 11] == r[9..11] == ToBe(stream.vid, 2);
  }

  lemma GateReads(s: seq<byte>, at: nat, gate: GateEntry)
    requires At(s, at, GateRecord(gate))
    ensures ReadGate(s, at) == gate
  {
    var r := GateRecord(gate);
    NumberFields();
    assert forall k :: 0 <= k < GCL_SIZE ==> s[at + k] == r[k] by {
      forall k | 0 <= k < GCL_SIZE
        ensures s[at + k] == r[k]
      {
        assert s[at..at + GCL_SIZE][k] == s[at + k];
      }
    }
    assert s[at..at + 4] == r[..4] == ToBe(gate.interval, 4);
  }

  lemma RecordSizes(c: QbvConf)
    requires Valid(c)
    ensures |Join(StreamRecords(c))| == 240 && |Join(GateRecords(c))| == GCL_SIZE * |c.gcl|
  {
    JoinLength(StreamRecords(c), STREAM_SIZE);
    JoinLength(GateRecords(c), GCL_SIZE);
  }

  /** The fifteen bytes of a stream record. */
  lemma StreamBytes(s: StreamId)
    requires |s.da| == ETHER_ADDR_LEN
    ensures var r := StreamRecord(s);
            && |r| == 15 && r[0] == s.mask && r[1] == 0 && r[2..8] == s.da && r[8] == 0
            && r[9] == s.vid / 256 && r[10] == s.vid % 256 && r[11] == s.pcp && r[12] == s.frer && r[13] == 0 && r[14] == 0
  {
    hide ToBe;
    BigEndian(s.vid);
  }

  /** The five bytes of a list entry. */
  lemma GateBytes(g: GateEntry)
    ensures GateRecord(g) == [g.interval / 0x100_0000, g.interval / 0x1_0000 % 256, g.interval / 0x100 % 256,
                              g.interval % 256, g.gateState]
  {
    hide ToBe;
    BigEndian(g.interval);
  }

  /** The first bytes of both messages. */
  lemma SwitchBytes(c: QbvConf)
    ensures Switches(c) == [c.initialGateState, c.priorityEnable, c.gateEnable, c.priorityQueueEnable]
  {
  }

  /** The packed layout of a message, or of anything longer that starts with it. */
  lemma LayoutV3(c: QbvConf, s: seq<byte>)
    requires Valid(c) && EncodeV3(c) <= s
    ensures |EncodeV3(c)| == SIZE_V3 + GCL_SIZE * |c.gcl|
    ensures At(s, 0, Switches(c)) && At(s, 4, c.prios) && At(s, 12, Join(StreamRecords(c))) && At(s, 252, [|c.gcl|])
    ensures At(s, 253, ToBe(c.cycleTime, 8)) && At(s, 261, ToBe(c.basetimeSec, 8)) && At(s, 269, ToBe(c.basetimeNsec, 4))
    ensures At(s, 273, [c.basetimeAdjust]) && At(s, 274, ToBe(c.streamidReset, 4)) && At(s, SIZE_V3, Join(GateRecords(c)))
  {
    hide At, StreamRecords, GateRecords, ToBe, Join;
    EmptyJoin(FieldsV3(c));
    var fields := FieldsV3(c);
    RecordSizes(c);
    NextField(fields, s, 0, 0);
    NextField(fields, s, 1, 4);
    NextField(fields, s, 2, 12);
    NextField(fields, s, 3, 252);
    NextField(fields, s, 4, 253);
    NextField(fields, s, 5, 261);
    NextField(fields, s, 6, 269);
    NextField(fields, s, 7, 273);
    NextField(fields, s, 8, 274);
    NextField(fields, s, 9, SIZE_V3);
    assert fields[..10] == fields;
  }

  lemma LayoutV2(c: QbvConf, s: seq<byte>)
    requires Valid(c) && EncodeV2(c) <= s
    ensures |EncodeV2(c)| == SIZE_V2 + GCL_SIZE * |c.gcl|
    ensures At(s, 0, Switches(c)) && At(s, 4, c.prios[..NUM_QUEUES_V2]) && At(s, 11, [|c.gcl|])
    ensures At(s, 12, ToBe(c.cycleTime % 0x1_0000_0000, 4)) && At(s, 16, ToBe(c.basetimeSec, 8))
    ensures At(s, 24, ToBe(c.basetimeNsec, 4)) && At(s, 28, [c.basetimeAdjust])
    ensures At(s, SIZE_V2, Join(GateRecords(c)))
  {
    hide At, StreamRecords, GateRecords, ToBe, Join;
    EmptyJoin(FieldsV2(c));
    var fields := FieldsV2(c);
    RecordSizes(c);
    NextField(fields, s, 0, 0);
    NextField(fields, s, 1, 4);
    NextField(fields, s, 2, 11);
    NextField(fields, s, 3, 12);
    NextField(fields, s, 4, 16);
    NextField(fields, s, 5, 24);
    NextField(fields, s, 6, 28);
    NextField(fields, s, 7, SIZE_V2);
    assert fields[..8] == fields;
  }

  lemma StreamsRead(c: QbvConf, s: seq<byte>, at: nat, i: nat)
    requires Valid(c) && At(s, at, Join(StreamRecords(c))) && i < NUM_STREAMS
    ensures at + STREAM_SIZE * i + STREAM_SIZE <= |s| && ReadStream(s, at + STREAM_SIZE * i) == c.streams[i]
  {
    JoinOfRecords(StreamRecords(c), STREAM_SIZE);
    AtNested(s, at, Join(StreamRecords(c)), STREAM_SIZE * i, StreamRecords(c)[i]);
    StreamReads(s, at + STREAM_SIZE * i, c.streams[i]);
  }

  lemma GatesRead(c: QbvConf, s: seq<byte>, at: nat, i: nat)
    requires Valid(c) && At(s, at, Join(GateRecords(c))) && i < |c.gcl|
    ensures at + GCL_SIZE * i + GCL_SIZE <= |s| && ReadGate(s, at + GCL_SIZE * i) == c.gcl[i]
  {
    JoinOfRecords(GateRecords(c), GCL_SIZE);
    AtNested(s, at, Join(GateRecords(c)), GCL_SIZE * i, GateRecords(c)[i]);
    GateReads(s, at + GCL_SIZE * i, c.gcl[i]);
  }

  // ----- round trips

  /** Newer hardware: whatever follows the payload, the configuration comes back unchanged, and
      the payload has 278 bytes plus five per list entry. */
  lemma RoundTripV3(c: QbvConf, reply: seq<byte>)
    requires Valid(c) && EncodeV3(c) <= reply
    ensures |EncodeV3(c)| == SIZE_V3 + GCL_SIZE * |c.gcl|
    ensures WholeV3(reply) && reply[252] == |c.gcl| && DecodeV3(reply) == c
  {
    hide Join, StreamRecords, GateRecords, ReadStream, ReadGate, ToBe, FromBe;
    LayoutV3(c, reply);
    NumberFields();
    BytesRead(reply, 0, Switches(c));
    BytesRead(reply, 252, [|c.gcl|]);
    BytesRead(reply, 273, [c.basetimeAdjust]);
    forall i | 0 <= i < NUM_STREAMS
      ensures ReadStream(reply, 12 + STREAM_SIZE * i) == c.streams[i]
    {
      StreamsRead(c, reply, 12, i);
    }
    forall i | 0 <= i < |c.gcl|
      ensures ReadGate(reply, SIZE_V3 + GCL_SIZE * i) == c.gcl[i]
    {
      GatesRead(c, reply, SIZE_V3, i);
    }
    assert reply[4..12] == c.prios;
    assert DecodeV3(reply).streams == c.streams;
    assert DecodeV3(reply).gcl == c.gcl;
  }

  /** Two configurations with the same message are the same. */
  lemma EncodeV3Injective(a: QbvConf, b: QbvConf)
    requires Valid(a) && Valid(b) && EncodeV3(a) == EncodeV3(b)
    ensures a == b
  {
    hide EncodeV3, DecodeV3;
    RoundTripV3(a, EncodeV3(a));
    RoundTripV3(b, EncodeV3(a));
  }

  /** Fields that only the newer layout has. */
  predicate HasV3OnlyFields(c: QbvConf) {
    || c.streamidReset != 0
    || exists i :: 0 <= i < |c.streams| && UsesStream(c.streams[i])
  }

  predicate UsesStream(s: StreamId) {
    s.mask != 0 || s.vid != 0 || s.pcp != 0 || s.frer != 0
  }

  /** What the older layout keeps of a configuration. */
  function ReducedToV2(c: QbvConf): QbvConf
    requires Valid(c)
  {
    c.(prios := c.prios[..NUM_QUEUES_V2] + [0], streams := seq(NUM_STREAMS, _ => NO_STREAM),
       cycleTime := c.cycleTime % 0x1_0000_0000, streamidReset := 0)
  }

  lemma RoundTripV2(c: QbvConf, reply: seq<byte>)
    requires Valid(c) && EncodeV2(c) <= reply
    ensures |EncodeV2(c)| == SIZE_V2 + GCL_SIZE * |c.gcl|
    ensures WholeV2(reply) && reply[11] == |c.gcl| && DecodeV2(reply) == ReducedToV2(c)
  {
    hide Join, GateRecords, ReadGate, ToBe, FromBe;
    LayoutV2(c, reply);
    NumberFields();
    BytesRead(reply, 0, Switches(c));
    BytesRead(reply, 11, [|c.gcl|]);
    BytesRead(reply, 28, [c.basetimeAdjust]);
    forall i | 0 <= i < |c.gcl|
      ensures ReadGate(reply, SIZE_V2 + GCL_SIZE * i) == c.gcl[i]
    {
      GatesRead(c, reply, SIZE_V2, i);
    }
    assert reply[4..11] == c.prios[..NUM_QUEUES_V2];
    assert DecodeV2(reply).gcl == c.gcl;
  }

  /** Of a configuration the older hardware is sent, exactly the eighth queue priority, the stream
      addresses and the high half of the cycle time are lost. */
  lemma LossOfV2(c: QbvConf)
    requires Valid(c) && !HasV3OnlyFields(c)
    ensures ReducedToV2(c) == c <==>
            c.prios[7] == 0 && c.cycleTime < 0x1_0000_0000
            && forall i :: 0 <= i < NUM_STREAMS ==> c.streams[i].da == Zeros(ETHER_ADDR_LEN)
    ensures ReducedToV2(c) == c.(prios := c.prios[7 := 0], cycleTime := c.cycleTime % 0x1_0000_0000,
                                 streams := seq(NUM_STREAMS, i requires 0 <= i < NUM_STREAMS =>
                                                  c.streams[i].(da := Zeros(ETHER_ADDR_LEN))))
  {
  }

  // ----- the code

  lemma OnlyFieldsAre(c: QbvConf)
    requires Valid(c)
    ensures HasV3OnlyFields(c) <==>
            c.streamidReset != 0
            || exists i :: 0 <= i < 16 && (c.streams[i].mask != 0 || c.streams[i].vid != 0
                                           || c.streams[i].pcp != 0 || c.streams[i].frer != 0)
  {
    assert forall i :: 0 <= i < 16 ==> (UsesStream(c.streams[i]) <==>
                                        c.streams[i].mask != 0 || c.streams[i].vid != 0
                                        || c.streams[i].pcp != 0 || c.streams[i].frer != 0);
  }

  /** Stream addresses alone never count: the older hardware is sent the configuration without them. */
  lemma AddressesDoNotCount(c: QbvConf, d: QbvConf)
    requires Valid(c) && Valid(d) && d.streamidReset == c.streamidReset
    requires forall i :: 0 <= i < 16 ==> d.streams[i] == c.streams[i].(da := d.streams[i].da)
    ensures HasV3OnlyFields(d) <==> HasV3OnlyFields(c)
  {
    assert forall i :: 0 <= i < 16 ==> (UsesStream(c.streams[i]) <==> UsesStream(d.streams[i]));
  }

  method CheckV3OnlyFields(c: QbvConf) returns (r: bool)
    requires Valid(c)
    ensures r <==> HasV3OnlyFields(c)
    ensures r <==>
            c.streamidReset != 0
            || exists i :: 0 <= i < 16 && (c.streams[i].mask != 0 || c.streams[i].vid != 0
                                           || c.streams[i].pcp != 0 || c.streams[i].frer != 0)
  {
    OnlyFieldsAre(c);
    if c.streamidReset != 0 {
      return true;
    }
    for i := 0 to NUM_QUEUES
      invariant forall k :: 0 <= k < 2 * i ==> !UsesStream(c.streams[k])
    {
      for j := 0 to 2
        invariant forall k :: 0 <= k < 2 * i + j ==> !UsesStream(c.streams[k])
      {
        var s := c.streams[2 * i + j];
        if s.mask != 0 || s.vid != 0 || s.pcp != 0 || s.frer != 0 {
          assert UsesStream(c.streams[2 * i + j]);
          return true;
        }
      }
    }
    return false;
  }

  function StreamFields(s: StreamId): seq<seq<byte>> {
    [[s.mask], Zeros(1), s.da, Zeros(1), ToBe(s.vid, 2), [s.pcp], [s.frer], Zeros(2)]
  }

  lemma StreamFieldsJoin(s: StreamId)
    requires |s.da| == ETHER_ADDR_LEN
    ensures Join(StreamFields(s)) == StreamRecord(s)
  {
    var fields := StreamFields(s);
    JoinNext(fields, 0);
    JoinNext(fields, 1);
    JoinNext(fields, 2);
    JoinNext(fields, 3);
    JoinNext(fields, 4);
    JoinNext(fields, 5);
    JoinNext(fields, 6);
    JoinNext(fields, 7);
    assert fields[..8] == fields;
  }

  method AppendStream(buf: array<byte>, at: nat, s: StreamId) returns (next: nat)
    requires |s.da| == ETHER_ADDR_LEN
    requires at + STREAM_SIZE <= buf.Length && Filled(buf[..], buf[..at])
    modifies buf
    ensures next == at + STREAM_SIZE && buf[..next] == old(buf[..at]) + StreamRecord(s)
    ensures Filled(buf[..], buf[..next])
  {
    hide StreamRecord, Filled, Join, Zeros;
    ghost var before, fields := buf[..at], StreamFields(s);
    StreamFieldsJoin(s);
    EmptyJoin(fields);
    next := AppendField(buf, at, [s.mask], before, fields, 0);
    next := SkipField(buf, next, 1, before, fields, 1);
    next := AppendField(buf, next, s.da, before, fields, 2);
    next := SkipField(buf, next, 1, before, fields, 3);
    next := AppendField(buf, next, ToBe(s.vid, 2), before, fields, 4);
    next := AppendField(buf, next, [s.pcp], before, fields, 5);
    next := AppendField(buf, next, [s.frer], before, fields, 6);
    next := SkipField(buf, next, 2, before, fields, 7);
    assert fields[..8] == fields;
  }

  method AppendStreams(buf: array<byte>, at: nat, c: QbvConf) returns (next: nat)
    requires Valid(c) && at + STREAM_SIZE * NUM_STREAMS <= buf.Length && Filled(buf[..], buf[..at])
    modifies buf
    ensures next == at + STREAM_SIZE * NUM_STREAMS
    ensures buf[..next] == old(buf[..at]) + Join(StreamRecords(c))
    ensures Filled(buf[..], buf[..next])
  {
    hide StreamRecord;
    ghost var records := StreamRecords(c);
    next := at;
    for k := 0 to NUM_STREAMS
      invariant next == at + STREAM_SIZE * k && Filled(buf[..], buf[..next])
      invariant buf[..next] == old(buf[..at]) + Join(records[..k])
    {
      JoinNext(records, k);
      next := AppendStream(buf, next, c.streams[k]);
    }
    assert records[..NUM_STREAMS] == records;
  }

  method AppendGates(buf: array<byte>, at: nat, c: QbvConf) returns (next: nat)
    requires at + GCL_SIZE * |c.gcl| <= buf.Length && Filled(buf[..], buf[..at])
    modifies buf
    ensures next == at + GCL_SIZE * |c.gcl|
    ensures buf[..next] == old(buf[..at]) + Join(GateRecords(c))
    ensures Filled(buf[..], buf[..next])
  {
    ghost var records := GateRecords(c);
    next := at;
    for k := 0 to |c.gcl|
      invariant next == at + GCL_SIZE * k && Filled(buf[..], buf[..next])
      invariant buf[..next] == old(buf[..at]) + Join(records[..k])
    {
      JoinNext(records, k);
      next := Append(buf, next, ToBe(c.gcl[k].interval, 4));
      next := Append(buf, next, [c.gcl[k].gateState]);
    }
    assert records[..|c.gcl|] == records;
  }

  /** Fills the cleared payload of the newer message field by field. */
  method FillV3(c: QbvConf) returns (payload: seq<byte>)
    requires Valid(c)
    ensures payload == EncodeV3(c)
  {
    hide StreamRecords, GateRecords, ToBe, Join, Filled;
    ghost var fields := FieldsV3(c);
    EmptyJoin(fields);
    RecordSizes(c);
    var buf := new byte[SIZE_V3 + GCL_SIZE * |c.gcl|](_ => 0);
    FreshIsFilled(buf);
    var at := AppendNext(buf, 0, Switches(c), fields, 0);
    at := AppendNext(buf, at, c.prios, fields, 1);
    at := AppendStreams(buf, at, c);
    JoinNext(fields, 2);
    at := FillV3Rest(buf, at, c);
    payload := buf[..at];
  }

  /** Everything behind the stream records. */
  method FillV3Rest(buf: array<byte>, at: nat, c: QbvConf) returns (next: nat)
    requires Valid(c) && at == 252 && buf.Length == SIZE_V3 + GCL_SIZE * |c.gcl|
    requires Filled(buf[..], buf[..at]) && buf[..at] == Join(FieldsV3(c)[..3])
    modifies buf
    ensures next == buf.Length && buf[..next] == EncodeV3(c)
  {
    hide StreamRecords, GateRecords, ToBe, Join, Filled, FieldsV3;
    ghost var fields := FieldsV3(c);
    LastFieldsV3(c);
    next := AppendNext(buf, at, [|c.gcl|], fields, 3);
    next := AppendNext(buf, next, ToBe(c.cycleTime, 8), fields, 4);
    next := AppendNext(buf, next, ToBe(c.basetimeSec, 8), fields, 5);
    next := AppendNext(buf, next, ToBe(c.basetimeNsec, 4), fields, 6);
    next := AppendNext(buf, next, [c.basetimeAdjust], fields, 7);
    next := AppendNext(buf, next, ToBe(c.streamidReset, 4), fields, 8);
    next := AppendGates(buf, next, c);
    JoinNext(fields, 9);
    assert fields[..10] == fields;
  }

  lemma LastFieldsV3(c: QbvConf)
    requires Valid(c)
    ensures var f := FieldsV3(c);
            && |f| == 10 && f[3] == [|c.gcl|] && f[4] == ToBe(c.cycleTime, 8) && f[5] == ToBe(c.basetimeSec, 8)
            && f[6] == ToBe(c.basetimeNsec, 4) && f[7] == [c.basetimeAdjust] && f[8] == ToBe(c.streamidReset, 4)
            && f[9] == Join(GateRecords(c)) && f[..10] == f
  {
  }

  method FillV2(c: QbvConf) returns (payload: seq<byte>)
    requires Valid(c)
    ensures payload == EncodeV2(c)
  {
    hide GateRecords, ToBe, Join, Filled;
    ghost var fields := FieldsV2(c);
    EmptyJoin(fields);
    RecordSizes(c);
    var buf := new byte[SIZE_V2 + GCL_SIZE * |c.gcl|](_ => 0);
    FreshIsFilled(buf);
    var at := AppendNext(buf, 0, Switches(c), fields, 0);
    at := AppendNext(buf, at, c.prios[..NUM_QUEUES_V2], fields, 1);
    at := AppendNext(buf, at, [|c.gcl|], fields, 2);
    at := FillV2Rest(buf, at, c);
    payload := buf[..at];
  }

  /** Everything behind the list length. */
  method FillV2Rest(buf: array<byte>, at: nat, c: QbvConf) returns (next: nat)
    requires Valid(c) && at == 12 && buf.Length == SIZE_V2 + GCL_SIZE * |c.gcl|
    requires Filled(buf[..], buf[..at]) && buf[..at] == Join(FieldsV2(c)[..3])
    modifies buf
    ensures next == buf.Length && buf[..next] == EncodeV2(c)
  {
    hide GateRecords, ToBe, Join, Filled, FieldsV2;
    ghost var fields := FieldsV2(c);
    LastFieldsV2(c);
    next := AppendNext(buf, at, ToBe(c.cycleTime % 0x1_0000_0000, 4), fields, 3);
    next := AppendNext(buf, next, ToBe(c.basetimeSec, 8), fields, 4);
    next := AppendNext(buf, next, ToBe(c.basetimeNsec, 4), fields, 5);
    next := AppendNext(buf, next, [c.basetimeAdjust], fields, 6);
    next := AppendGates(buf, next, c);
    JoinNext(fields, 7);
    assert fields[..8] == fields;
  }

  lemma LastFieldsV2(c: QbvConf)
    requires Valid(c)
    ensures var f := FieldsV2(c);
            && |f| == 8 && f[3] == ToBe(c.cycleTime % 0x1_0000_0000, 4) && f[4] == ToBe(c.basetimeSec, 8)
            && f[5] == ToBe(c.basetimeNsec, 4) && f[6] == [c.basetimeAdjust] && f[7] == Join(GateRecords(c))
  {
  }

  /** The set path: only the two known hardware versions are served, and the older one refuses
      what it cannot express. */
  method SetQbvConf(rtlVersion: byte, c: QbvConf) returns (r: Request)
    requires Valid(c)
    ensures r.Message? ==> r.command == if rtlVersion == 3 then 15 else 4
    ensures r.NotSupported? <==> !(rtlVersion == 3 || (rtlVersion == 2 && !HasV3OnlyFields(c)))
    ensures r.Message? && rtlVersion == 3 ==>
              r.command == SET_QBV_V3 && r.payload == EncodeV3(c) && r.size == |r.payload| == SIZE_V3 + GCL_SIZE * |c.gcl|
    ensures r.Message? && rtlVersion == 2 ==>
              r.command == SET_QBV && r.payload == EncodeV2(c) && r.size == |r.payload| == SIZE_V2 + GCL_SIZE * |c.gcl|
  {
    hide EncodeV2, EncodeV3;
    if rtlVersion == 2 {
      var only := CheckV3OnlyFields(c);
      if only {
        return NotSupported;
      }
      var size := SIZE_V2 + GCL_SIZE * |c.gcl|;
      var payload := FillV2(c);
      LayoutV2(c, payload);
      return Message(SET_QBV, size, payload);
    }
    if rtlVersion == 3 {
      var size := SIZE_V3 + GCL_SIZE * |c.gcl|;
      var payload := FillV3(c);
      LayoutV3(c, payload);
      return Message(SET_QBV_V3, size, payload);
    }
    return NotSupported;
  }

  method ReadGates(s: seq<byte>, at: nat, count: nat) returns (gates: seq<GateEntry>)
    requires at + GCL_SIZE * count <= |s|
    ensures gates == seq(count, i requires 0 <= i < count => ReadGate(s, at + GCL_SIZE * i))
  {
    gates := [];
    for i := 0 to count
      invariant |gates| == i && forall k :: 0 <= k < i ==> gates[k] == ReadGate(s, at + GCL_SIZE * k)
    {
      gates := gates + [GateEntry(Number32(s, at + GCL_SIZE * i), s[at + GCL_SIZE * i + 4])];
    }
  }

  /** The get path on the reply of the newer hardware. */
  method GetQbvConfV3(s: seq<byte>) returns (c: QbvConf)
    requires IsReplyV3(s)
    ensures c == DecodeV3(s)
  {
    var streams := [];
    for i := 0 to NUM_QUEUES
      invariant |streams| == 2 * i
      invariant forall k :: 0 <= k < 2 * i ==> streams[k] == ReadStream(s, 12 + STREAM_SIZE * k)
    {
      for j := 0 to 2
        invariant |streams| == 2 * i + j
        invariant forall k :: 0 <= k < 2 * i + j ==> streams[k] == ReadStream(s, 12 + STREAM_SIZE * k)
      {
        var at := 12 + STREAM_SIZE * (2 * i + j);
        streams := streams + [StreamId(s[at], s[at + 2..at + 8], Number16(s, at + 9), s[at + 11], s[at + 12])];
      }
    }
    var gates := ReadGates(s, SIZE_V3, s[252]);
    c := QbvConf(s[0], s[1], s[2], s[3], s[4..12], streams, Number64(s, 253), Number64(s, 261),
                 Number32(s, 269), s[273], Number32(s, 274), gates);
    assert c.streams == DecodeV3(s).streams;
  }

  method GetQbvConfV2(s: seq<byte>) returns (c: QbvConf)
    requires IsReplyV2(s)
    ensures c == DecodeV2(s)
  {
    var gates := ReadGates(s, SIZE_V2, s[11]);
    c := QbvConf(s[0], s[1], s[2], s[3], s[4..11] + [0], seq(NUM_STREAMS, _ => NO_STREAM), Number32(s, 12),
                 Number64(s, 16), Number32(s, 24), s[28], 0, gates);
  }

  /** Set and get in a row, through a device that keeps the payload at the front of its reply. */
  method SetThenGet(rtlVersion: byte, c: QbvConf, rest: seq<byte>) returns (sent: bool, back: QbvConf)
    requires Valid(c) && |c.gcl| <= REPLY_ENTRIES
    requires |rest| == GCL_SIZE * (REPLY_ENTRIES - |c.gcl|)
    ensures rtlVersion == 3 ==> sent && back == c
    ensures rtlVersion == 2 ==> (sent <==> !HasV3OnlyFields(c)) && (sent ==> back == ReducedToV2(c))
    ensures rtlVersion != 2 && rtlVersion != 3 ==> !sent
  {
    hide EncodeV2, EncodeV3, DecodeV2, DecodeV3;
    back := c;
    var request := SetQbvConf(rtlVersion, c);
    sent := request.Message?;
    if sent && rtlVersion == 3 {
      RoundTripV3(c, request.payload + rest);
      back := GetQbvConfV3(request.payload + rest);
    } else if sent {
      RoundTripV2(c, request.payload + rest);
      back := GetQbvConfV2(request.payload + rest);
    }
  }
}
