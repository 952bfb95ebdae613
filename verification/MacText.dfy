/** MAC addresses as text: validation, two parsers and the printer of the command line tool.
    Strings are without their terminating zero. */
module MacText {
  import opened Basics

  const MAC_LEN: nat := 6

  // ----- characters

  /** The value of a hexadecimal digit, -1 for any other character. */
  function HexCharToInt(c: char): (v: int)
    ensures -1 <= v < 16
  {
    if '0' <= c <= '9' then c as int - '0' as int
    else if 'a' <= c <= 'f' then c as int - 'a' as int + 10
    else if 'A' <= c <= 'F' then c as int - 'A' as int + 10
    else -1
  }

  predicate IsXDigit(c: char) {
    '0' <= c <= '9' || 'a' <= c <= 'f' || 'A' <= c <= 'F'
  }

  function HexDigit(v: int): char
    requires 0 <= v < 16
  {
    "0123456789abcdef"[v]
  }

  lemma HexDigitReads(v: int)
    requires 0 <= v < 16
    ensures HexCharToInt(HexDigit(v)) == v && IsXDigit(HexDigit(v))
  {
  }

  /** The sixteen digits, letters in both cases, and nothing else. */
  lemma HexValues(c: char)
    ensures forall v :: 0 <= v < 16 ==>
              HexCharToInt("0123456789abcdef"[v]) == v && HexCharToInt("0123456789ABCDEF"[v]) == v
    ensures HexCharToInt(c) != -1 ==>
              "0123456789abcdef"[HexCharToInt(c)] == c || "0123456789ABCDEF"[HexCharToInt(c)] == c
    ensures IsXDigit(c) <==> HexCharToInt(c) != -1
  {
    var v := HexCharToInt(c);
    if v != -1 {
      assert "0123456789abcdef"[v] as int == if v < 10 then '0' as int + v else 'a' as int + v - 10;
      assert "0123456789ABCDEF"[v] as int == if v < 10 then '0' as int + v else 'A' as int + v - 10;
    }
  }

  // ----- validation

  predicate ValidAt(s: string, i: nat)
    requires i < |s|
  {
    if |s| == 17 && i % 3 == 2 then s[i] == ':' else IsXDigit(s[i])
  }

  /** Twelve hexadecimal digits, or six pairs of them with colons between. */
  predicate IsValid(s: string) {
    (|s| == 12 || |s| == 17) && forall i :: 0 <= i < |s| ==> ValidAt(s, i)
  }

  lemma ValidForms(s: string)
    ensures IsValid(s) <==>
            || (|s| == 12 && forall i :: 0 <= i < 12 ==> IsXDigit(s[i]))
            || (|s| == 17 && forall i :: 0 <= i < 17 ==> if i % 3 == 2 then s[i] == ':' else IsXDigit(s[i]))
  {
    hide IsXDigit;
    if |s| == 12 {
      assert forall i :: 0 <= i < 12 ==> (ValidAt(s, i) <==> IsXDigit(s[i]));
    } else if |s| == 17 {
      assert forall i :: 0 <= i < 17 ==> (ValidAt(s, i) <==> if i % 3 == 2 then s[i] == ':' else IsXDigit(s[i]));
    }
  }

  method IsValidMacAddress(mac: string) returns (valid: bool)
    ensures valid <==> IsValid(mac)
    ensures valid <==>
            || (|mac| == 12 && forall i :: 0 <= i < 12 ==> IsXDigit(mac[i]))
            || (|mac| == 17 && forall i :: 0 <= i < 17 ==> if i % 3 == 2 then mac[i] == ':' else IsXDigit(mac[i]))
  {
    ValidForms(mac);
    var len := |mac|;
    if len != 12 && len != 17 {
      return false;
    }
    for i := 0 to len
      invariant forall k :: 0 <= k < i ==> ValidAt(mac, k)
    {
      if len == 17 && i % 3 == 2 {
        if mac[i] != ':' {
          assert !ValidAt(mac, i);
          return false;
        }
      } else if !IsXDigit(mac[i]) {
        assert !ValidAt(mac, i);
        return false;
      }
    }
    return true;
  }

  // ----- the general parser

  /** The values of the characters that are not colons. */
  function Nibbles(s: string): seq<int> {
    if |s| == 0 then []
    else
      var last := s[|s| - 1];
      Nibbles(s[..|s| - 1]) + if last == ':' then [] else [HexCharToInt(last)]
  }

  predicate AllHex(n: seq<int>) {
    forall i :: 0 <= i < |n| ==> 0 <= n[i] < 16
  }

  /** Pairs of digits, the higher one first. */
  function Pairs(n: seq<int>): seq<byte>
    requires |n| >= 12 && AllHex(n)
  {
    seq(MAC_LEN, i requires 0 <= i < MAC_LEN => n[2 * i] * 16 + n[2 * i + 1])
  }

  /** What mac_str_to_bytes makes of a string: it succeeds on twelve digits, and also on thirteen. */
  function Parse(s: string): Option<seq<byte>> {
    var n := Nibbles(s);
    if AllHex(n) && (|n| == 12 || |n| == 13) then Some(Pairs(n)) else None
  }

  lemma {:induction false} NibblesOfPrefix(s: string, k: nat)
    requires k <= |s|
    ensures Nibbles(s[..k]) <= Nibbles(s)
    decreases |s|
  {
    if k == |s| {
      assert s[..k] == s;
    } else {
      NibblesOfPrefix(s[..|s| - 1], k);
      assert s[..|s| - 1][..k] == s[..k];
    }
  }

  lemma NibblesNext(s: string, k: nat)
    requires k < |s|
    ensures Nibbles(s[..k + 1]) == if s[k] == ':' then Nibbles(s[..k]) else Nibbles(s[..k]) + [HexCharToInt(s[k])]
  {
    assert s[..k + 1][..k] == s[..k];
  }

  // ----- what the parser writes

  predicate IsAddressChar(c: char) {
    c == ':' || IsXDigit(c)
  }

  /** Where the parser meets the first character that is neither a colon nor a digit. */
  function Stop(s: string): (k: nat)
    ensures k <= |s| && (forall i :: 0 <= i < k ==> IsAddressChar(s[i]))
    ensures k < |s| ==> !IsAddressChar(s[k])
  {
    if |s| == 0 then 0
    else
      var k := Stop(s[..|s| - 1]);
      if k == |s| - 1 && IsAddressChar(s[k]) then |s| else k
  }

  lemma StopIs(s: string, k: nat)
    requires k <= |s| && (forall i :: 0 <= i < k ==> IsAddressChar(s[i]))
    ensures k <= Stop(s)
    ensures k < |s| && !IsAddressChar(s[k]) ==> k == Stop(s)
  {
  }

  /** The digits the parser can see. */
  function DigitsRead(s: string): seq<int> {
    Nibbles(s[..Stop(s)])
  }

  /** Byte k of the address after the digits n have been stored over it: a lone first digit
      clears the lower half. */
  function ByteAfter(n: seq<int>, k: nat, before: byte): byte
    requires AllHex(n)
  {
    if |n| >= 2 * k + 2 then n[2 * k] * 16 + n[2 * k + 1]
    else if |n| == 2 * k + 1 then n[2 * k] * 16
    else before
  }

  lemma {:induction false} GoodNibbles(s: string)
    requires forall i :: 0 <= i < |s| ==> IsAddressChar(s[i])
    ensures AllHex(Nibbles(s)) && |Nibbles(s)| == |WithoutColons(s)|
  {
    hide HexCharToInt, IsXDigit;
    if |s| > 0 {
      GoodNibbles(s[..|s| - 1]);
      if s[|s| - 1] != ':' {
        XDigitValue(s[|s| - 1]);
      }
    }
  }

  /** The byte behind the six of the address is written if and only if at least thirteen digits
      come before the first character that is neither digit nor colon. */
  lemma WritesBehindIff(s: string)
    ensures AllHex(DigitsRead(s)) && |DigitsRead(s)| == |WithoutColons(s[..Stop(s)])|
    ensures (exists before: byte :: ByteAfter(DigitsRead(s), MAC_LEN, before) != before)
            <==> |WithoutColons(s[..Stop(s)])| >= 13
  {
    GoodNibbles(s[..Stop(s)]);
    var n := DigitsRead(s);
    if |n| >= 13 {
      var first: byte := ByteAfter(n, MAC_LEN, 0);
      var other: byte := if first == 0 then 1 else 0;
      assert ByteAfter(n, MAC_LEN, other) != other;
    }
  }

  /** Thirteen digits are accepted and write behind the address; so do thirteen digits in a text
      that is rejected. */
  lemma ThirteenthDigit(before: byte)
    ensures Parse("0123456789abc") == Some([0x01, 0x23, 0x45, 0x67, 0x89, 0xab])
    ensures Parse("0123456789abcx") == None
    ensures AllHex(DigitsRead("0123456789abc")) && ByteAfter(DigitsRead("0123456789abc"), MAC_LEN, before) == 0xc0
    ensures AllHex(DigitsRead("0123456789abcx")) && ByteAfter(DigitsRead("0123456789abcx"), MAC_LEN, before) == 0xc0
  {
    hide Nibbles, HexCharToInt, IsXDigit;
    var s, t := "0123456789abc", "0123456789abcx";
    Thirteen();
    assert Pairs(Nibbles(s)) == [0x01, 0x23, 0x45, 0x67, 0x89, 0xab];
    assert s[..13] == s && t[..13] == s;
    StopIs(s, 13);
    StopIs(t, 13);
    XDigitIff(t[13]);
    BadDigit(t, 13);
  }

  lemma Thirteen()
    ensures forall i :: 0 <= i < 13 ==> IsAddressChar("0123456789abc"[i])
    ensures !IsXDigit('x') && Nibbles("0123456789abc") == [0, 1, 2, 3, 4, 5, 6, 7, 8, 9, 10, 11, 12]
  {
    PlainNibbles("0123456789abc");
  }

  lemma {:induction false} PlainNibbles(s: string)
    requires ':' !in s
    ensures Nibbles(s) == seq(|s|, i requires 0 <= i < |s| => HexCharToInt(s[i]))
  {
    if |s| > 0 {
      PlainNibbles(s[..|s| - 1]);
    }
  }

  /** A text the validator accepts never writes behind the address. */
  lemma ValidStaysInside(s: string, before: byte)
    requires IsValid(s)
    ensures DigitsRead(s) == Nibbles(s) && AllHex(DigitsRead(s))
    ensures ByteAfter(DigitsRead(s), MAC_LEN, before) == before
  {
    hide IsXDigit;
    forall i | 0 <= i < |s|
      ensures IsAddressChar(s[i])
    {
      assert ValidAt(s, i);
    }
    StopIs(s, |s|);
    assert s[..|s|] == s;
    ValidNibbles(s);
  }

  /** The digits n are stored over the seven bytes from at on, and nothing else has changed. */
  ghost predicate Stored(before: seq<byte>, now: seq<byte>, at: nat, n: seq<int>) {
    && |now| == |before| && at + MAC_LEN < |before| && AllHex(n)
    && (forall i :: at <= i <= at + MAC_LEN ==> now[i] == ByteAfter(n, i - at, before[i]))
    && (forall i :: 0 <= i < |before| && !(at <= i <= at + MAC_LEN) ==> now[i] == before[i])
  }

  /** The address is stored at mem[at..at + 6]; mem goes on behind it. */
  method MacStrToBytes(mac: string, mem: array<byte>, at: nat) returns (ret: int)
    requires at + MAC_LEN < mem.Length
    modifies mem
    ensures ret == if Parse(mac).Some? then 0 else -1
    ensures Parse(mac).Some? ==> mem[at..at + MAC_LEN] == Parse(mac).value
    ensures Stored(old(mem[..]), mem[..], at, DigitsRead(mac))
  {
    hide HexCharToInt, IsXDigit, Stored, Nibbles, Stop, Parse, IsAddressChar, ByteAfter, AllHex, Pairs;
    var byteIndex, nibble := 0, 0;
    ghost var before := mem[..];
    WritesBehindIff(mac);
    NothingStored(before, at);
    NoNibbles();
    for i := 0 to |mac|
      invariant forall k :: 0 <= k < i ==> IsAddressChar(mac[k])
      invariant AllHex(Nibbles(mac[..i])) && |Nibbles(mac[..i])| == 2 * byteIndex + nibble
      invariant 0 <= nibble <= 1 && byteIndex <= MAC_LEN
      invariant Stored(before, mem[..], at, Nibbles(mac[..i]))
    {
      NibblesNext(mac, i);
      AddressCharIff(mac[i]);
      if mac[i] != ':' {
        var value := HexCharToInt(mac[i]);
        if value == -1 {
          StopIs(mac, i);
          BadDigit(mac, i);
          return -1;
        }
        ghost var was, n := mem[..], Nibbles(mac[..i]);
        StoreDigit(before, was, at, n, byteIndex, value);
        if nibble == 0 {
          mem[at + byteIndex] := value * 16;
          assert mem[..] == was[at + byteIndex := value * 16];
          nibble := 1;
        } else {
          mem[at + byteIndex] := mem[at + byteIndex] + value;
          assert mem[..] == was[at + byteIndex := was[at + byteIndex] + value];
          byteIndex := byteIndex + 1;
          nibble := 0;
        }
        if byteIndex > MAC_LEN {
          TooManyDigits(mac, i + 1, before, mem[..], at);
          return -1;
        }
      }
    }
    assert mac[..|mac|] == mac;
    StopIs(mac, |mac|);
    StoredBytes(before, mem[..], at, Nibbles(mac));
    ParseIs(mac);
    return if byteIndex == 6 then 0 else -1;
  }

  lemma NoNibbles()
    ensures Nibbles("") == [] && AllHex([])
  {
  }

  lemma ParseIs(s: string)
    ensures Parse(s) == if AllHex(Nibbles(s)) && (|Nibbles(s)| == 12 || |Nibbles(s)| == 13) then Some(Pairs(Nibbles(s))) else None
  {
  }

  lemma AddressCharIff(c: char)
    ensures IsAddressChar(c) <==> c == ':' || HexCharToInt(c) != -1
  {
  }

  lemma NothingStored(mem: seq<byte>, at: nat)
    requires at + MAC_LEN < |mem|
    ensures Stored(mem, mem, at, [])
  {
  }

  /** One more digit changes one byte. */
  lemma StoreDigit(before: seq<byte>, now: seq<byte>, at: nat, n: seq<int>, k: nat, value: int)
    requires Stored(before, now, at, n) && k <= MAC_LEN && 2 * k <= |n| <= 2 * k + 1 && 0 <= value < 16
    ensures var b := if |n| == 2 * k then value * 16 else now[at + k] + value;
            b < 256 && Stored(before, now[at + k := b], at, n + [value]) && AllHex(n + [value])
  {
  }

  lemma StoredBytes(before: seq<byte>, now: seq<byte>, at: nat, n: seq<int>)
    requires Stored(before, now, at, n)
    ensures |n| >= 12 ==> now[at..at + MAC_LEN] == Pairs(n)
    ensures AllHex(n)
  {
  }

  lemma XDigitIff(c: char)
    ensures HexCharToInt(c) == -1 <==> !IsXDigit(c)
    ensures IsXDigit(c) ==> c != ':'
  {
  }

  lemma BadDigit(s: string, k: nat)
    requires k < |s| && s[k] != ':' && HexCharToInt(s[k]) == -1
    ensures !AllHex(Nibbles(s)) && Parse(s) == None
  {
    NibblesNext(s, k);
    NibblesOfPrefix(s, k + 1);
    assert Nibbles(s)[|Nibbles(s[..k])|] == -1;
  }

  /** After fourteen digits all seven bytes are final, and the text is rejected. */
  lemma TooManyDigits(s: string, k: nat, before: seq<byte>, now: seq<byte>, at: nat)
    requires k <= |s| && (forall i :: 0 <= i < k ==> IsAddressChar(s[i]))
    requires |Nibbles(s[..k])| == 14 && Stored(before, now, at, Nibbles(s[..k]))
    ensures Parse(s) == None && AllHex(DigitsRead(s)) && Stored(before, now, at, DigitsRead(s))
  {
    WritesBehindIff(s);
    StopIs(s, k);
    NibblesOfPrefix(s, k);
    NibblesOfPrefix(s[..Stop(s)], k);
    assert s[..Stop(s)][..k] == s[..k];
  }

  /** One turn of the prompt on a trimmed line, the only use of the parser: the line is validated
      first, so only the six bytes of the address can change. */
  method MacAddrInput(line: string, editMode: bool, mem: array<byte>, at: nat) returns (done: bool)
    requires at + MAC_LEN < mem.Length
    modifies mem
    ensures done <==> IsValid(line) || (editMode && line == "")
    ensures IsValid(line) ==> Parse(line).Some? && mem[at..at + MAC_LEN] == Parse(line).value
    ensures !IsValid(line) ==> mem[..] == old(mem[..])
    ensures forall i :: 0 <= i < mem.Length && !(at <= i < at + MAC_LEN) ==> mem[i] == old(mem[i])
  {
    if line == "" {
      return editMode;
    }
    var valid := IsValidMacAddress(line);
    if valid {
      ValidIsParsed(line);
      ValidStaysInside(line, mem[at + MAC_LEN]);
      var ret := MacStrToBytes(line, mem, at);
      return true;
    }
    return false;
  }

  // ----- valid addresses

  /** The place of digit j in a valid address, and the number of digits before character k. */
  function DigitPlace(len: nat, j: nat): nat {
    if len == 17 then j / 2 * 3 + j % 2 else j
  }

  function DigitsBefore(len: nat, k: nat): nat {
    if len == 17 then k / 3 * 2 + k % 3 else k
  }

  /** A valid address has twelve digits, at known places. */
  lemma ValidNibbles(s: string)
    requires IsValid(s)
    ensures AllHex(Nibbles(s)) && |Nibbles(s)| == 12
    ensures forall j :: 0 <= j < 12 ==> Nibbles(s)[j] == HexCharToInt(s[DigitPlace(|s|, j)])
  {
    ValidNibblesUpTo(s, |s|);
    NoDigitsBefore(|s|);
    assert s[..|s|] == s;
  }

  /** Character k is a colon, or the next digit. */
  lemma PlaceOfNext(len: nat, k: nat)
    requires k < len && (len == 12 || len == 17)
    ensures if len == 17 && k % 3 == 2 then DigitsBefore(len, k + 1) == DigitsBefore(len, k)
            else DigitsBefore(len, k + 1) == DigitsBefore(len, k) + 1 && DigitPlace(len, DigitsBefore(len, k)) == k
    ensures forall j :: 0 <= j < DigitsBefore(len, k) ==> DigitPlace(len, j) < k
  {
  }

  lemma XDigitValue(c: char)
    requires IsXDigit(c)
    ensures 0 <= HexCharToInt(c) < 16 && c != ':'
  {
  }

  /** The digits n are the first ones of s, all before character k. */
  ghost predicate DigitsUpTo(s: string, k: nat, n: seq<int>) {
    && |n| == DigitsBefore(|s|, k) && AllHex(n)
    && forall j :: 0 <= j < |n| ==>
         DigitPlace(|s|, j) < k <= |s| && n[j] == HexCharToInt(s[DigitPlace(|s|, j)])
  }

  lemma NextUpTo(s: string, k: nat, n: seq<int>)
    requires IsValid(s) && k < |s| && DigitsUpTo(s, k, n)
    ensures DigitsUpTo(s, k + 1, if s[k] == ':' then n else n + [HexCharToInt(s[k])])
  {
    hide HexCharToInt, DigitPlace, DigitsBefore, IsXDigit;
    PlaceOfNext(|s|, k);
    assert ValidAt(s, k);
    if !(|s| == 17 && k % 3 == 2) {
      XDigitValue(s[k]);
    }
  }

  lemma {:induction false} ValidNibblesUpTo(s: string, k: nat)
    requires IsValid(s) && k <= |s|
    ensures DigitsUpTo(s, k, Nibbles(s[..k]))
    decreases k
  {
    hide IsValid, HexCharToInt;
    if k > 0 {
      ValidNibblesUpTo(s, k - 1);
      NibblesNext(s, k - 1);
      NextUpTo(s, k - 1, Nibbles(s[..k - 1]));
    }
  }

  lemma NoDigitsBefore(len: nat)
    ensures DigitsBefore(len, 0) == 0 && DigitsBefore(17, 17) == 12 && DigitsBefore(12, 12) == 12
  {
  }

  /** Every address the validator accepts is parsed to exactly six bytes. */
  lemma ValidIsParsed(s: string)
    requires IsValid(s)
    ensures Parse(s).Some? && |Parse(s).value| == MAC_LEN
  {
    ValidNibbles(s);
  }

  function WithoutColons(s: string): string {
    if |s| == 0 then ""
    else
      var last := s[|s| - 1];
      WithoutColons(s[..|s| - 1]) + if last == ':' then "" else [last]
  }

  /** Colons never matter to the parser. */
  lemma {:induction false} ColonsDoNotMatter(s: string)
    ensures Nibbles(WithoutColons(s)) == Nibbles(s) && Parse(WithoutColons(s)) == Parse(s)
  {
    if |s| > 0 {
      var init, last := s[..|s| - 1], s[|s| - 1];
      ColonsDoNotMatter(init);
      if last != ':' {
        assert WithoutColons(s)[..|WithoutColons(s)| - 1] == WithoutColons(init);
      } else {
        assert WithoutColons(s) == WithoutColons(init);
      }
    }
  }

  /** Exactly which strings the parser accepts: it looks neither at where the colons are nor at a
      thirteenth digit, so it accepts more than the validator. */
  lemma ParserAccepts(s: string)
    ensures Parse(s).Some? <==>
            && (forall i :: 0 <= i < |s| ==> IsAddressChar(s[i]))
            && (|WithoutColons(s)| == 12 || |WithoutColons(s)| == 13)
  {
    NibbleCount(s);
  }

  lemma {:induction false} NibbleCount(s: string)
    ensures |Nibbles(s)| == |WithoutColons(s)|
    ensures AllHex(Nibbles(s)) <==> forall i :: 0 <= i < |s| ==> IsAddressChar(s[i])
  {
    hide HexCharToInt, IsXDigit, AllHex;
    if forall i :: 0 <= i < |s| ==> IsAddressChar(s[i]) {
      GoodNibbles(s);
    } else {
      var i :| 0 <= i < |s| && !IsAddressChar(s[i]);
      XDigitIff(s[i]);
      BadDigit(s, i);
      SameCount(s);
    }
  }

  lemma {:induction false} SameCount(s: string)
    ensures |Nibbles(s)| == |WithoutColons(s)|
  {
    if |s| > 0 {
      SameCount(s[..|s| - 1]);
    }
  }

  // ----- the parser of configuration files

  /** strtoul in base 16 on two characters, cut to a byte. */
  function PairValue(hi: char, lo: char): byte {
    var h, l := HexCharToInt(hi), HexCharToInt(lo);
    if h >= 0 then (if l >= 0 then h * 16 + l else h)
    else if (IsSpace(hi) || hi == '+') && l >= 0 then l
    else if hi == '-' && l >= 0 then (256 - l) % 256
    else 0
  }

  /** Pairs that are no two digits: leading space and signs as strtoul takes them, and the value of
      what comes before the first bad character. */
  lemma OddPairs()
    ensures PairValue(' ', '7') == 7 && PairValue('+', 'f') == 15 && PairValue('-', '1') == 255
    ensures PairValue('7', 'x') == 7 && PairValue('0', 'x') == 0 && PairValue('x', '7') == 0
  {
  }

  method ParseMacString(mac: string) returns (da: seq<byte>)
    requires |mac| >= 17
    ensures da == seq(MAC_LEN, k requires 0 <= k < MAC_LEN => PairValue(mac[3 * k], mac[3 * k + 1]))
  {
    da := [];
    for k := 0 to MAC_LEN
      invariant |da| == k && forall j :: 0 <= j < k ==> da[j] == PairValue(mac[3 * j], mac[3 * j + 1])
    {
      da := da + [PairValue(mac[3 * k], mac[3 * k + 1])];
    }
  }

  /** Both parsers agree on every valid address with colons. */
  lemma ParsersAgree(s: string)
    requires IsValid(s) && |s| == 17
    ensures Parse(s) == Some(seq(MAC_LEN, k requires 0 <= k < MAC_LEN => PairValue(s[3 * k], s[3 * k + 1])))
  {
    ValidNibbles(s);
    var n := Nibbles(s);
    forall k | 0 <= k < MAC_LEN
      ensures Pairs(n)[k] == PairValue(s[3 * k], s[3 * k + 1])
    {
      assert DigitPlace(17, 2 * k) == 3 * k && DigitPlace(17, 2 * k + 1) == 3 * k + 1;
    }
    assert Pairs(n) == seq(MAC_LEN, k requires 0 <= k < MAC_LEN => PairValue(s[3 * k], s[3 * k + 1]));
  }

  // ----- printing

  /** Six two-digit lower-case numbers with colons between. */
  function MacAddrToStr(b: seq<byte>): (s: string)
    requires |b| == MAC_LEN
    ensures |s| == 17
  {
    seq(17, i requires 0 <= i < 17 =>
      if i % 3 == 0 then HexDigit(b[i / 3] / 16) else if i % 3 == 1 then HexDigit(b[i / 3] % 16) else ':')
  }

  /** Printed addresses are valid, and both parsers read them back. */
  lemma PrintThenParse(b: seq<byte>)
    requires |b| == MAC_LEN
    ensures IsValid(MacAddrToStr(b))
    ensures Parse(MacAddrToStr(b)) == Some(b)
    ensures forall k :: 0 <= k < MAC_LEN ==> PairValue(MacAddrToStr(b)[3 * k], MacAddrToStr(b)[3 * k + 1]) == b[k]
  {
    hide IsValid, MacAddrToStr, PairValue, Parse;
    PrintedIsValid(b);
    PrintedPairs(b);
    ParsersAgree(MacAddrToStr(b));
    assert Parse(MacAddrToStr(b)).value == b;
  }

  /** The text: lower-case pairs, the high digit first, with colons between. */
  lemma PrintedText(b: seq<byte>)
    requires |b| == MAC_LEN
    ensures forall k :: 0 <= k < 6 ==>
              && MacAddrToStr(b)[3 * k] == "0123456789abcdef"[b[k] / 16]
              && MacAddrToStr(b)[3 * k + 1] == "0123456789abcdef"[b[k] % 16]
              && (k < 5 ==> MacAddrToStr(b)[3 * k + 2] == ':')
  {
    forall k | 0 <= k < 6
      ensures MacAddrToStr(b)[3 * k] == HexDigit(b[k] / 16) && MacAddrToStr(b)[3 * k + 1] == HexDigit(b[k] % 16)
      ensures k < 5 ==> MacAddrToStr(b)[3 * k + 2] == ':'
    {
      hide HexDigit;
    }
  }

  lemma PrintedIsValid(b: seq<byte>)
    requires |b| == MAC_LEN
    ensures IsValid(MacAddrToStr(b))
  {
    hide HexCharToInt, HexDigit, IsXDigit;
    forall i | 0 <= i < 17
      ensures ValidAt(MacAddrToStr(b), i)
    {
      HexDigitReads(b[i / 3] / 16);
      HexDigitReads(b[i / 3] % 16);
    }
  }

  lemma PrintedPairs(b: seq<byte>)
    requires |b| == MAC_LEN
    ensures forall k :: 0 <= k < MAC_LEN ==> PairValue(MacAddrToStr(b)[3 * k], MacAddrToStr(b)[3 * k + 1]) == b[k]
  {
    hide HexCharToInt, HexDigit, IsXDigit, IsSpace;
    forall k | 0 <= k < MAC_LEN
      ensures PairValue(MacAddrToStr(b)[3 * k], MacAddrToStr(b)[3 * k + 1]) == b[k]
    {
      HexDigitReads(b[k] / 16);
      HexDigitReads(b[k] % 16);
    }
  }
}
