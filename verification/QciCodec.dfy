/** Stream filtering and policing (QCI, version 3) messages: sixteen records of 33 bytes. */
module QciCodec {
  import opened Basics
  import opened WireFormat

  const NUM_PORTS: nat := 2
  const STREAMS_PER_PORT: nat := 8
  const NUM_RECORDS: nat := 16         // port by port
  const ETHER_ADDR_LEN: nat := 6
  const RECORD_SIZE: nat := 33
  const SIZE: nat := 528
  const SET_QCI_V3: byte := 19

  datatype Policy = Policy(mask: byte, da: seq<byte>, vid: u16, maxSdu: u16, cbs: u32, ebs: u32, cir: u32, eir: u32,
                           filterEnable: byte, meterEnable: byte, dropOnYellow: byte, sduExceed: byte,
                           update: byte)

  datatype Request = Message(command: byte, size: u16, payload: seq<byte>) | NotSupported

  ghost predicate Valid(conf: seq<Policy>) {
    |conf| == NUM_RECORDS && forall i :: 0 <= i < NUM_RECORDS ==> |conf[i].da| == ETHER_ADDR_LEN
  }

  /** The fields of one record; the last byte is reserved. */
  function RecordFields(p: Policy): seq<seq<byte>> {
    [[p.mask], p.da, ToBe(p.vid, 2), ToBe(p.maxSdu, 2), ToBe(p.cbs, 4), ToBe(p.ebs, 4), ToBe(p.cir, 4), ToBe(p.eir, 4),
     [p.filterEnable, p.meterEnable, p.dropOnYellow, p.sduExceed, p.update], Zeros(1)]
  }

  function Records(conf: seq<Policy>): seq<seq<byte>> {
    seq(|conf|, i requires 0 <= i < |conf| => Join(RecordFields(conf[i])))
  }

  function Encode(conf: seq<Policy>): seq<byte> {
    Join(Records(conf))
  }

  function ReadPolicy(s: seq<byte>, at: nat): Policy
    requires at + RECORD_SIZE <= |s|
  {
    Policy(s[at], s[at + 1..at + 7], Number16(s, at + 7), Number16(s, at + 9), Number32(s, at + 11), Number32(s, at + 15),
           Number32(s, at + 19), Number32(s, at + 23), s[at + 27], s[at + 28], s[at + 29], s[at + 30], s[at + 31])
  }

  function Decode(s: seq<byte>): seq<Policy>
    requires |s| == SIZE
  {
    seq(NUM_RECORDS, i requires 0 <= i < NUM_RECORDS => ReadPolicy(s, RECORD_SIZE * i))
  }

  /** Where the fields of a record lie. */
  lemma RecordLayout(p: Policy)
    requires |p.da| == ETHER_ADDR_LEN
    ensures var r := Join(RecordFields(p));
            && |r| == RECORD_SIZE
            && At(r, 0, [p.mask]) && At(r, 1, p.da) && At(r, 7, ToBe(p.vid, 2)) && At(r, 9, ToBe(p.maxSdu, 2))
            && At(r, 11, ToBe(p.cbs, 4)) && At(r, 15, ToBe(p.ebs, 4)) && At(r, 19, ToBe(p.cir, 4))
            && At(r, 23, ToBe(p.eir, 4))
            && At(r, 27, [p.filterEnable, p.meterEnable, p.dropOnYellow, p.sduExceed, p.update])
            && At(r, 32, Zeros(1))
  {
    hide At, ToBe, Join;
    var fields := RecordFields(p);
    var r := Join(fields);
    EmptyJoin(fields);
    NextField(fields, r, 0, 0);
    NextField(fields, r, 1, 1);
    NextField(fields, r, 2, 7);
    NextField(fields, r, 3, 9);
    NextField(fields, r, 4, 11);
    NextField(fields, r, 5, 15);
    NextField(fields, r, 6, 19);
    NextField(fields, r, 7, 23);
    NextField(fields, r, 8, 27);
    NextField(fields, r, 9, 32);
    assert fields[..10] == fields;
  }

  lemma PolicyReads(s: seq<byte>, at: nat, p: Policy)
    requires |p.da| == ETHER_ADDR_LEN && at + RECORD_SIZE <= |s| && At(s, at, Join(RecordFields(p)))
    ensures ReadPolicy(s, at) == p
  {
    hide ToBe, FromBe, Join;
    var r := Join(RecordFields(p));
    RecordLayout(p);
    NumberFields();
    BytesRead(s, at, r);
    BytesRead(r, 0, [p.mask]);
    BytesRead(r, 27, [p.filterEnable, p.meterEnable, p.dropOnYellow, p.sduExceed, p.update]);
    AtNested(s, at, r, 1, p.da);
    AtNested(s, at, r, 7, ToBe(p.vid, 2));
    AtNested(s, at, r, 9, ToBe(p.maxSdu, 2));
    AtNested(s, at, r, 11, ToBe(p.cbs, 4));
    AtNested(s, at, r, 15, ToBe(p.ebs, 4));
    AtNested(s, at, r, 19, ToBe(p.cir, 4));
    AtNested(s, at, r, 23, ToBe(p.eir, 4));
    var flags := [p.filterEnable, p.meterEnable, p.dropOnYellow, p.sduExceed, p.update];
    assert s[at + 0] == r[0 + 0] == [p.mask][0];
    assert s[at + 27] == r[27 + 0] == flags[0] && s[at + 28] == r[27 + 1] == flags[1];
    assert s[at + 29] == r[27 + 2] == flags[2] && s[at + 30] == r[27 + 3] == flags[3];
    assert s[at + 31] == r[27 + 4] == flags[4];
  }

  lemma RecordsSize(conf: seq<Policy>)
    requires Valid(conf)
    ensures forall i :: 0 <= i < NUM_RECORDS ==> |Records(conf)[i]| == RECORD_SIZE
    ensures |Encode(conf)| == SIZE
  {
    forall i | 0 <= i < NUM_RECORDS
      ensures |Records(conf)[i]| == RECORD_SIZE
    {
      RecordLayout(conf[i]);
    }
    JoinLength(Records(conf), RECORD_SIZE);
  }

  /** The 528 bytes of the set path read back by the get path are the configuration. */
  lemma RoundTrip(conf: seq<Policy>)
    requires Valid(conf)
    ensures |Encode(conf)| == SIZE && Decode(Encode(conf)) == conf
  {
    hide RecordFields, ReadPolicy;
    RecordsSize(conf);
    JoinOfRecords(Records(conf), RECORD_SIZE);
    forall i | 0 <= i < NUM_RECORDS
      ensures ReadPolicy(Encode(conf), RECORD_SIZE * i) == conf[i]
    {
      assert At(Encode(conf), RECORD_SIZE * i, Records(conf)[i]);
      PolicyReads(Encode(conf), RECORD_SIZE * i, conf[i]);
    }
  }

  // ----- the code

  method AppendRecord(buf: array<byte>, at: nat, p: Policy) returns (next: nat)
    requires |p.da| == ETHER_ADDR_LEN
    requires at + RECORD_SIZE <= buf.Length && Filled(buf[..], buf[..at])
    modifies buf
    ensures next == at + RECORD_SIZE && buf[..next] == old(buf[..at]) + Join(RecordFields(p))
    ensures Filled(buf[..], buf[..next])
  {
    hide Filled, Join, Zeros, ToBe;
    ghost var before, fields := buf[..at], RecordFields(p);
    EmptyJoin(fields);
    next := AppendField(buf, at, [p.mask], before, fields, 0);
    next := AppendField(buf, next, p.da, before, fields, 1);
    next := AppendField(buf, next, ToBe(p.vid, 2), before, fields, 2);
    next := AppendField(buf, next, ToBe(p.maxSdu, 2), before, fields, 3);
    next := AppendField(buf, next, ToBe(p.cbs, 4), before, fields, 4);
    next := AppendField(buf, next, ToBe(p.ebs, 4), before, fields, 5);
    next := AppendField(buf, next, ToBe(p.cir, 4), before, fields, 6);
    next := AppendField(buf, next, ToBe(p.eir, 4), before, fields, 7);
    next := AppendField(buf, next, [p.filterEnable, p.meterEnable, p.dropOnYellow, p.sduExceed, p.update],
                        before, fields, 8);
    next := SkipField(buf, next, 1, before, fields, 9);
    assert fields[..10] == fields;
  }

  method FillRecords(conf: seq<Policy>) returns (payload: seq<byte>)
    requires Valid(conf)
    ensures payload == Encode(conf) && |payload| == SIZE
  {
    hide RecordFields;
    ghost var records := Records(conf);
    RecordsSize(conf);
    var buf := new byte[SIZE](_ => 0);
    var at := 0;
    for i := 0 to NUM_PORTS
      invariant at == RECORD_SIZE * (STREAMS_PER_PORT * i) && Filled(buf[..], buf[..at])
      invariant buf[..at] == Join(records[..STREAMS_PER_PORT * i])
    {
      for j := 0 to STREAMS_PER_PORT
        invariant at == RECORD_SIZE * (STREAMS_PER_PORT * i + j) && Filled(buf[..], buf[..at])
        invariant buf[..at] == Join(records[..STREAMS_PER_PORT * i + j])
      {
        var k := STREAMS_PER_PORT * i + j;
        JoinNext(records, k);
        at := AppendRecord(buf, at, conf[k]);
      }
    }
    assert records[..NUM_RECORDS] == records;
    payload := buf[..];
  }

  /** The set path: only hardware of version 3 is served. */
  method SetQciConf(rtlVersion: byte, conf: seq<Policy>) returns (r: Request)
    requires Valid(conf)
    ensures r == if rtlVersion == 3 then Message(19, 528, Encode(conf)) else NotSupported
  {
    if rtlVersion != 3 {
      return NotSupported;
    }
    var payload := FillRecords(conf);
    return Message(SET_QCI_V3, SIZE, payload);
  }

  method GetQciConf(s: seq<byte>) returns (conf: seq<Policy>)
    requires |s| == SIZE
    ensures conf == Decode(s)
  {
    conf := [];
    for i := 0 to NUM_PORTS
      invariant |conf| == STREAMS_PER_PORT * i
      invariant forall k :: 0 <= k < |conf| ==> conf[k] == ReadPolicy(s, RECORD_SIZE * k)
    {
      for j := 0 to STREAMS_PER_PORT
        invariant |conf| == STREAMS_PER_PORT * i + j
        invariant forall k :: 0 <= k < |conf| ==> conf[k] == ReadPolicy(s, RECORD_SIZE * k)
      {
        var at := RECORD_SIZE * (STREAMS_PER_PORT * i + j);
        conf := conf + [ReadPolicy(s, at)];
      }
    }
  }

  /** Set and get in a row, through a device that answers with the payload it was sent. */
  method SetThenGet(rtlVersion: byte, conf: seq<Policy>) returns (sent: bool, back: seq<Policy>)
    requires Valid(conf)
    ensures sent <==> rtlVersion == 3
    ensures sent ==> back == conf
  {
    hide Encode, Decode;
    back := conf;
    var request := SetQciConf(rtlVersion, conf);
    sent := request.Message?;
    if sent {
      RoundTrip(conf);
      back := GetQciConf(request.payload);
    }
  }
}
