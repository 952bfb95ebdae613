/** Packed messages: big-endian numbers and fields at fixed offsets. */
module WireFormat {
  import opened Basics

  type u16 = x: int | 0 <= x < 0x1_0000
  type u32 = x: int | 0 <= x < 0x1_0000_0000
  type u64 = x: int | 0 <= x < 0x1_0000_0000_0000_0000

  /** The n low bytes of x, most significant first. */
  function ToBe(x: nat, n: nat): (s: seq<byte>)
    ensures |s| == n
  {
    if n == 0 then [] else ToBe(x / 256, n - 1) + [x % 256]
  }

  function FromBe(s: seq<byte>): nat {
    if |s| == 0 then 0 else FromBe(s[..|s| - 1]) * 256 + s[|s| - 1]
  }

  function Pow256(n: nat): nat {
    if n == 0 then 1 else 256 * Pow256(n - 1)
  }

  /** Numbers of the widths in use, byte by byte; of eight bytes the upper and the lower four. */
  lemma BigEndian(x: nat)
    ensures ToBe(x, 2) == [x / 0x100 % 256, x % 256]
    ensures ToBe(x, 4) == [x / 0x100_0000 % 256, x / 0x1_0000 % 256, x / 0x100 % 256, x % 256]
    ensures ToBe(x, 8) == ToBe(x / 0x1_0000_0000, 4) + ToBe(x, 4)
  {
    hide ToBe;
    var y := x / 256 / 256 / 256 / 256;
    FourBytes(x, 0);
    FourBytes(x, 4);
    TwoBytes(x);
    assert ToBe(y, 0) == [];
    assert y == x / 0x1_0000_0000;
  }

  lemma ToBeStep(x: nat, n: nat)
    ensures ToBe(x, n + 1) == ToBe(x / 256, n) + [x % 256]
  {
  }

  lemma TwoBytes(x: nat)
    ensures ToBe(x, 2) == [x / 0x100 % 256, x % 256]
  {
    hide ToBe;
    ToBeStep(x, 1);
    ToBeStep(x / 256, 0);
  }

  lemma FourBytes(x: nat, n: nat)
    ensures ToBe(x, n + 4) == ToBe(x / 256 / 256 / 256 / 256, n)
                              + [x / 0x100_0000 % 256, x / 0x1_0000 % 256, x / 0x100 % 256, x % 256]
  {
    hide ToBe;
    ToBeStep(x, n + 3);
    ToBeStep(x / 256, n + 2);
    ToBeStep(x / 256 / 256, n + 1);
    ToBeStep(x / 256 / 256 / 256, n);
  }

  lemma {:induction false} BeRoundTrip(x: nat, n: nat)
    requires x < Pow256(n)
    ensures FromBe(ToBe(x, n)) == x
  {
    if n > 0 {
      BeRoundTrip(x / 256, n - 1);
      var s := ToBe(x, n);
      assert s[..n - 1] == ToBe(x / 256, n - 1);
    }
  }

  lemma Widths()
    ensures Pow256(2) == 0x1_0000 && Pow256(4) == 0x1_0000_0000 && Pow256(8) == 0x1_0000_0000_0000_0000
  {
  }

  /** A reader of a number field gets the number written there. */
  lemma NumberFields()
    ensures forall x: u16 :: FromBe(ToBe(x, 2)) == x
    ensures forall x: u32 :: FromBe(ToBe(x, 4)) == x
    ensures forall x: u64 :: FromBe(ToBe(x, 8)) == x
  {
    Widths();
    forall x: u16 ensures FromBe(ToBe(x, 2)) == x { BeRoundTrip(x, 2); }
    forall x: u32 ensures FromBe(ToBe(x, 4)) == x { BeRoundTrip(x, 4); }
    forall x: u64 ensures FromBe(ToBe(x, 8)) == x { BeRoundTrip(x, 8); }
  }

  /** The bytes of field lie at offset at of message s. */
  ghost predicate At(s: seq<byte>, at: nat, field: seq<byte>) {
    at + |field| <= |s| && s[at..at + |field|] == field
  }

  lemma AtLonger(s: seq<byte>, t: seq<byte>, at: nat, field: seq<byte>)
    requires At(s, at, field) && s <= t
    ensures At(t, at, field)
  {
  }

  /** A field of a field. */
  lemma AtNested(s: seq<byte>, at: nat, outer: seq<byte>, inside: nat, inner: seq<byte>)
    requires At(s, at, outer) && At(outer, inside, inner)
    ensures At(s, at + inside, inner)
  {
    forall k | 0 <= k < |inner|
      ensures s[at + inside..at + inside + |inner|][k] == inner[k]
    {
      assert outer[inside..inside + |inner|][k] == outer[inside + k] == s[at..at + |outer|][inside + k];
    }
  }

  // ----- messages made of fields

  function Join(fields: seq<seq<byte>>): seq<byte> {
    if |fields| == 0 then [] else Join(fields[..|fields| - 1]) + fields[|fields| - 1]
  }

  lemma JoinNext(fields: seq<seq<byte>>, k: nat)
    requires k < |fields|
    ensures Join(fields[..k + 1]) == Join(fields[..k]) + fields[k]
  {
    assert fields[..k + 1][..k] == fields[..k];
  }

  /** Every field lies right behind those before it. */
  lemma {:induction false} JoinAt(fields: seq<seq<byte>>, k: nat)
    requires k < |fields|
    ensures At(Join(fields), |Join(fields[..k])|, fields[k])
    decreases |fields|
  {
    var last := |fields| - 1;
    assert Join(fields[..last]) <= Join(fields);
    if k == last {
      assert Join(fields)[|Join(fields[..k])|..] == fields[k];
    } else {
      JoinAt(fields[..last], k);
      assert fields[..last][..k] == fields[..k];
      AtLonger(Join(fields[..last]), Join(fields), |Join(fields[..k])|, fields[k]);
    }
  }

  lemma {:induction false} JoinLength(records: seq<seq<byte>>, size: nat)
    requires forall k :: 0 <= k < |records| ==> |records[k]| == size
    ensures |Join(records)| == size * |records|
  {
    if |records| > 0 {
      JoinLength(records[..|records| - 1], size);
    }
  }

  /** Records of one size lie at multiples of it. */
  lemma JoinOfRecords(records: seq<seq<byte>>, size: nat)
    requires forall k :: 0 <= k < |records| ==> |records[k]| == size
    ensures |Join(records)| == size * |records|
    ensures forall k :: 0 <= k < |records| ==> At(Join(records), size * k, records[k])
  {
    hide At;
    JoinLength(records, size);
    forall k | 0 <= k < |records|
      ensures At(Join(records), size * k, records[k])
    {
      JoinAt(records, k);
      JoinLength(records[..k], size);
    }
  }

  /** The part of a message buffer behind the fields written so far is still zero. */
  ghost predicate Filled(buf: seq<byte>, written: seq<byte>) {
    written <= buf && forall k :: |written| <= k < |buf| ==> buf[k] == 0
  }

  /** Writes the next field of a message. */
  method Append(buf: array<byte>, at: nat, field: seq<byte>) returns (next: nat)
    requires at + |field| <= buf.Length && Filled(buf[..], buf[..at])
    modifies buf
    ensures next == at + |field| && buf[..next] == old(buf[..at]) + field
    ensures Filled(buf[..], buf[..next])
  {
    for i := 0 to |field|
      invariant buf[..at] == old(buf[..at])
      invariant forall k :: 0 <= k < i ==> buf[at + k] == field[k]
      invariant forall k :: at + i <= k < buf.Length ==> buf[k] == 0
    {
      buf[at + i] := field[i];
    }
    next := at + |field|;
    assert buf[at..next] == field;
    assert buf[..next] == buf[..at] + buf[at..next];
  }

  /** Reserved bytes are left as the allocation cleared them. */
  method Skip(buf: array<byte>, at: nat, count: nat) returns (next: nat)
    requires at + count <= buf.Length && Filled(buf[..], buf[..at])
    ensures next == at + count && buf[..next] == buf[..at] + Zeros(count)
    ensures Filled(buf[..], buf[..next])
  {
    next := at + count;
    assert buf[at..next] == Zeros(count);
    assert buf[..next] == buf[..at] + buf[at..next];
  }

  function Zeros(n: nat): seq<byte> {
    seq(n, _ => 0)
  }

  // ----- reading and writing by field

  function Number16(s: seq<byte>, at: nat): u16
    requires at + 2 <= |s|
  {
    FromBeRange(s[at..at + 2]);
    FromBe(s[at..at + 2])
  }

  function Number32(s: seq<byte>, at: nat): u32
    requires at + 4 <= |s|
  {
    FromBeRange(s[at..at + 4]);
    FromBe(s[at..at + 4])
  }

  function Number64(s: seq<byte>, at: nat): u64
    requires at + 8 <= |s|
  {
    FromBeRange(s[at..at + 8]);
    FromBe(s[at..at + 8])
  }

  lemma FromBeRange(s: seq<byte>)
    ensures |s| == 2 ==> FromBe(s) < 0x1_0000
    ensures |s| == 4 ==> FromBe(s) < 0x1_0000_0000
    ensures |s| == 8 ==> FromBe(s) < 0x1_0000_0000_0000_0000
  {
    FromBeBelow(s);
    Widths();
  }

  lemma {:induction false} FromBeBelow(s: seq<byte>)
    ensures FromBe(s) < Pow256(|s|)
  {
    if |s| > 0 {
      FromBeBelow(s[..|s| - 1]);
    }
  }

  /** Where each field of a list of fields starts, given where the one before it does. */
  lemma NextField(fields: seq<seq<byte>>, s: seq<byte>, k: nat, at: nat)
    requires k < |fields| && |Join(fields[..k])| == at && Join(fields) <= s
    ensures At(s, at, fields[k]) && |Join(fields[..k + 1])| == at + |fields[k]|
  {
    JoinNext(fields, k);
    JoinAt(fields, k);
    AtLonger(Join(fields), s, at, fields[k]);
  }

  lemma BytesRead(s: seq<byte>, at: nat, field: seq<byte>)
    requires At(s, at, field)
    ensures at + |field| <= |s| && forall k :: 0 <= k < |field| ==> s[at + k] == field[k]
  {
  }

  lemma EmptyJoin(fields: seq<seq<byte>>)
    ensures Join(fields[..0]) == []
  {
  }

  /** The next of several fields behind what the buffer already held. */
  method AppendField(buf: array<byte>, at: nat, field: seq<byte>,
                     ghost before: seq<byte>, ghost fields: seq<seq<byte>>, ghost k: nat) returns (next: nat)
    requires k < |fields| && field == fields[k] && at + |field| <= buf.Length
    requires buf[..at] == before + Join(fields[..k]) && Filled(buf[..], buf[..at])
    modifies buf
    ensures next == at + |field| && buf[..next] == before + Join(fields[..k + 1]) && Filled(buf[..], buf[..next])
  {
    JoinNext(fields, k);
    next := Append(buf, at, field);
  }

  /** The same for a buffer that holds nothing else. */
  method AppendNext(buf: array<byte>, at: nat, field: seq<byte>, ghost fields: seq<seq<byte>>, ghost k: nat)
    returns (next: nat)
    requires k < |fields| && field == fields[k] && at + |field| <= buf.Length
    requires buf[..at] == Join(fields[..k]) && Filled(buf[..], buf[..at])
    modifies buf
    ensures next == at + |field| && buf[..next] == Join(fields[..k + 1]) && Filled(buf[..], buf[..next])
  {
    JoinNext(fields, k);
    next := Append(buf, at, field);
  }

  method SkipField(buf: array<byte>, at: nat, count: nat,
                   ghost before: seq<byte>, ghost fields: seq<seq<byte>>, ghost k: nat) returns (next: nat)
    requires k < |fields| && Zeros(count) == fields[k] && at + count <= buf.Length
    requires buf[..at] == before + Join(fields[..k]) && Filled(buf[..], buf[..at])
    ensures next == at + count && buf[..next] == before + Join(fields[..k + 1]) && Filled(buf[..], buf[..next])
  {
    JoinNext(fields, k);
    next := Skip(buf, at, count);
  }

  lemma FreshIsFilled(buf: array<byte>)
    requires forall k :: 0 <= k < buf.Length ==> buf[k] == 0
    ensures Filled(buf[..], buf[..0])
  {
  }
}
