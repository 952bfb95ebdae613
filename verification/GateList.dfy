/** Gate states as text: the list of open gates that the command line tool prints and reads. */
module GateList {
  import opened Basics

  const NUM_GATES: nat := 8
  const MAX_GCL_CSV_LEN: nat := 64

  // ----- bits

  /** The bit of gate b in a state byte. */
  function Mask(b: nat): bv8
    requires b < NUM_GATES
  {
    if b == 0 then 1 else if b == 1 then 2 else if b == 2 then 4 else if b == 3 then 8
    else if b == 4 then 16 else if b == 5 then 32 else if b == 6 then 64 else 128
  }

  /** Bit b of the byte. */
  lemma MaskIsBit(b: nat)
    requires b < NUM_GATES
    ensures Mask(b) == [0x01, 0x02, 0x04, 0x08, 0x10, 0x20, 0x40, 0x80][b]
  {
  }

  predicate IsOpen(state: bv8, b: nat)
    requires b < NUM_GATES
  {
    state & Mask(b) != 0
  }

  /** The gates that a state leaves open. */
  ghost function OpenGates(state: bv8): set<nat> {
    set b: nat | b < NUM_GATES && IsOpen(state, b)
  }

  lemma OpenOneMore(state: bv8, b: nat)
    requires b < NUM_GATES
    ensures OpenGates(state | Mask(b)) == OpenGates(state) + {b}
  {
    hide Mask, IsOpen;
    forall c: nat | c < NUM_GATES
      ensures IsOpen(state | Mask(b), c) <==> IsOpen(state, c) || c == b
    {
      OpenAfterOr(state, b, c);
    }
  }

  lemma OpenAfterOr(state: bv8, b: nat, c: nat)
    requires b < NUM_GATES && c < NUM_GATES
    ensures IsOpen(state | Mask(b), c) <==> IsOpen(state, c) || c == b
  {
  }

  lemma StateFromGates(x: bv8, y: bv8)
    requires OpenGates(x) == OpenGates(y)
    ensures x == y
  {
    SameBits(x, y, 0);
    SameBits(x, y, 1);
    SameBits(x, y, 2);
    SameBits(x, y, 3);
    SameBits(x, y, 4);
    SameBits(x, y, 5);
    SameBits(x, y, 6);
    SameBits(x, y, 7);
    EightBits(x, y);
  }

  lemma SameBits(x: bv8, y: bv8, b: nat)
    requires b < NUM_GATES && OpenGates(x) == OpenGates(y)
    ensures x & Mask(b) != 0 <==> y & Mask(b) != 0
  {
    assert b in OpenGates(x) <==> b in OpenGates(y);
  }

  lemma EightBits(x: bv8, y: bv8)
    requires (x & 1 != 0 <==> y & 1 != 0) && (x & 2 != 0 <==> y & 2 != 0)
    requires (x & 4 != 0 <==> y & 4 != 0) && (x & 8 != 0 <==> y & 8 != 0)
    requires (x & 16 != 0 <==> y & 16 != 0) && (x & 32 != 0 <==> y & 32 != 0)
    requires (x & 64 != 0 <==> y & 64 != 0) && (x & 128 != 0 <==> y & 128 != 0)
    ensures x == y
  {
  }

  // ----- tokens and numbers

  function Digit(b: nat): char
    requires b < 10
  {
    ('0' as int + b) as char
  }

  predicate IsDigit(c: char) {
    '0' <= c <= '9'
  }

  /** Leading digits of a string as a number. */
  function DigitsValue(s: string, acc: nat): nat {
    if |s| == 0 || !IsDigit(s[0]) then acc
    else DigitsValue(s[1..], acc * 10 + (s[0] as int - '0' as int))
  }

  /** atoi: white space, a sign, digits; anything else ends the number. */
  function Atoi(s: string): int {
    if |s| == 0 then 0
    else if IsSpace(s[0]) then Atoi(s[1..])
    else if s[0] == '-' then -(DigitsValue(s[1..], 0) as int)
    else if s[0] == '+' then DigitsValue(s[1..], 0)
    else DigitsValue(s, 0)
  }

  /** The end of the token that starts at i. */
  function TokenEnd(s: string, i: nat): (j: nat)
    requires i <= |s|
    ensures i <= j <= |s|
    ensures forall k :: i <= k < j ==> s[k] != ','
    ensures j < |s| ==> s[j] == ','
    decreases |s| - i
  {
    if i == |s| || s[i] == ',' then i else TokenEnd(s, i + 1)
  }

  /** strtok with commas: empty tokens are skipped. */
  function Tokens(s: string): seq<string>
    decreases |s|
  {
    if |s| == 0 then []
    else if s[0] == ',' then Tokens(s[1..])
    else
      var j := TokenEnd(s, 0);
      [s[..j]] + Tokens(s[j..])
  }

  /** The gates named by the tokens of a text. */
  ghost function NamedGates(tokens: seq<string>): set<nat> {
    set b: nat | b < NUM_GATES && Names(tokens, b)
  }

  ghost predicate Names(tokens: seq<string>, b: int) {
    exists t :: t in tokens && Atoi(t) == b
  }

  // ----- what atoi and strtok do

  function Decimal(n: nat): (s: string)
    ensures |s| > 0 && forall i :: 0 <= i < |s| ==> IsDigit(s[i])
  {
    if n < 10 then [Digit(n)] else Decimal(n / 10) + [Digit(n % 10)]
  }

  lemma {:induction false} DigitsAppend(s: string, d: nat, rest: string, acc: nat)
    requires d < 10 && (forall i :: 0 <= i < |s| ==> IsDigit(s[i])) && (rest == "" || !IsDigit(rest[0]))
    ensures DigitsValue(s + [Digit(d)] + rest, acc) == DigitsValue(s + rest, acc) * 10 + d
    decreases |s|
  {
    var whole := s + [Digit(d)] + rest;
    if |s| == 0 {
      assert whole[0] as int - '0' as int == d && whole[1..] == rest && s + rest == rest;
    } else {
      assert whole[1..] == s[1..] + [Digit(d)] + rest && (s + rest)[1..] == s[1..] + rest;
      DigitsAppend(s[1..], d, rest, acc * 10 + (s[0] as int - '0' as int));
    }
  }

  lemma {:induction false} DigitsOfDecimal(n: nat, rest: string)
    requires rest == "" || !IsDigit(rest[0])
    ensures DigitsValue(Decimal(n) + rest, 0) == n
  {
    if n < 10 {
      DigitsAppend("", n, rest, 0);
      assert "" + [Digit(n)] + rest == Decimal(n) + rest && "" + rest == rest;
    } else {
      DigitsOfDecimal(n / 10, rest);
      DigitsAppend(Decimal(n / 10), n % 10, rest, 0);
    }
  }

  /** A printed number is read back whatever follows it, with or without a sign. */
  lemma AtoiReadsDecimal(n: nat, rest: string)
    requires rest == "" || !IsDigit(rest[0])
    ensures Atoi(Decimal(n) + rest) == n
    ensures Atoi(['-'] + (Decimal(n) + rest)) == -(n as int) && Atoi(['+'] + (Decimal(n) + rest)) == n
  {
    hide Decimal, DigitsValue;
    DigitsOfDecimal(n, rest);
    SignedDigits(Decimal(n) + rest);
  }

  lemma SignedDigits(s: string)
    requires |s| > 0 && IsDigit(s[0])
    ensures Atoi(s) == DigitsValue(s, 0)
    ensures Atoi(['-'] + s) == -(DigitsValue(s, 0) as int) && Atoi(['+'] + s) == DigitsValue(s, 0)
  {
    hide DigitsValue;
    assert (['-'] + s)[1..] == s && (['+'] + s)[1..] == s;
  }

  /** White space in front is skipped; a text that starts with no number is zero. */
  lemma AtoiOfOther(s: string, space: char)
    requires IsSpace(space)
    ensures Atoi([space] + s) == Atoi(s)
    ensures s == "" || (!IsSpace(s[0]) && !IsDigit(s[0]) && s[0] != '-' && s[0] != '+') ==> Atoi(s) == 0
  {
    assert ([space] + s)[1..] == s;
  }

  /** Commas separate and nothing else does: together with the empty text and a text without commas
      this fixes all tokens. */
  lemma {:induction false} TokensConcat(s: string, t: string)
    ensures Tokens(s + [','] + t) == Tokens(s) + Tokens(t)
    decreases |s|
  {
    var whole := s + [','] + t;
    if |s| == 0 {
      assert whole[1..] == t;
    } else if s[0] == ',' {
      assert whole[1..] == s[1..] + [','] + t;
      TokensConcat(s[1..], t);
    } else {
      var j := TokenEnd(s, 0);
      TokenEndSame(s, whole, j);
      assert whole[..j] == s[..j];
      assert whole[j..] == s[j..] + [','] + t;
      TokensConcat(s[j..], t);
    }
  }

  // ----- parsing

  /** strtok over a copy of the string: each token opens the gate it names, other numbers are
      ignored. */
  method SetBitsFromString(s: string, state: bv8) returns (r: bv8)
    ensures OpenGates(r) == OpenGates(state) + NamedGates(Tokens(s))
  {
    hide OpenGates, NamedGates, Atoi, Tokens, TokenEnd;
    NoTokens();
    r := state;
    var i := 0;
    ghost var seen: seq<string> := [];
    while i < |s|
      invariant 0 <= i <= |s|
      invariant seen + Tokens(s[i..]) == Tokens(s)
      invariant OpenGates(r) == OpenGates(state) + NamedGates(seen)
    {
      if s[i] == ',' {
        EmptyToken(s, i);
        i := i + 1;
      } else {
        var j := i;
        while j < |s| && s[j] != ','
          invariant i <= j <= |s| && forall k :: i <= k < j ==> s[k] != ','
        {
          j := j + 1;
        }
        TokenEndShift(s, i, j);
        var token := s[i..j];
        var bit := Atoi(token);
        NamedOneMore(seen, token);
        if bit >= 0 && bit <= 7 {
          OpenOneMore(r, bit);
          r := r | Mask(bit);
        }
        seen := seen + [token];
        i := j;
      }
    }
    assert s[i..] == "" && seen + [] == seen;
  }

  lemma NoTokens()
    ensures NamedGates([]) == {} && Tokens("") == []
  {
  }

  lemma EmptyToken(s: string, i: nat)
    requires i < |s| && s[i] == ','
    ensures Tokens(s[i..]) == Tokens(s[i + 1..])
  {
    assert s[i..][1..] == s[i + 1..];
  }

  lemma TokenEndShift(s: string, i: nat, j: nat)
    requires i < j <= |s| && (forall k :: i <= k < j ==> s[k] != ',') && (j < |s| ==> s[j] == ',')
    ensures Tokens(s[i..]) == [s[i..j]] + Tokens(s[j..])
  {
    var t := s[i..];
    assert TokenEnd(t, 0) == j - i by {
      assert forall k :: 0 <= k < j - i ==> t[k] == s[i + k] && t[k] != ',';
      assert j < |s| ==> t[j - i] == s[j];
    }
    assert t[..j - i] == s[i..j] && t[j - i..] == s[j..];
  }

  lemma NamedOneMore(seen: seq<string>, token: string)
    ensures NamedGates(seen + [token]) ==
            NamedGates(seen) + if 0 <= Atoi(token) < NUM_GATES then {Atoi(token)} else {}
  {
  }

  method GclCsvToUint(s: string) returns (state: bv8)
    ensures OpenGates(state) == NamedGates(Tokens(s))
  {
    state := SetBitsFromString(s, 0);
    assert OpenGates(0) == {};
  }

  // ----- validation

  predicate IsGateDigit(c: char) {
    '0' <= c <= '7'
  }

  /** One gate digit, or one before a comma and a list. */
  predicate IsGateList(s: string)
    decreases |s|
  {
    |s| > 0 && IsGateDigit(s[0]) && (|s| == 1 || (s[1] == ',' && IsGateList(s[2..])))
  }

  /** Digits at even places, commas between, of any odd length. */
  lemma {:induction false} GateListForm(s: string)
    ensures IsGateList(s) <==>
            |s| % 2 == 1 && forall i :: 0 <= i < |s| ==> if i % 2 == 0 then '0' <= s[i] <= '7' else s[i] == ','
    decreases |s|
  {
    if |s| > 2 {
      GateListForm(s[2..]);
      assert forall i :: 2 <= i < |s| ==> s[i] == s[2..][i - 2];
      assert forall i :: 0 <= i < |s| - 2 ==> s[2..][i] == s[i + 2];
    }
  }

  method IsGclStateCsv(str: string) returns (r: bool)
    ensures r <==> IsGateList(str)
    ensures r <==>
            |str| % 2 == 1
            && forall i :: 0 <= i < |str| ==> if i % 2 == 0 then '0' <= str[i] <= '7' else str[i] == ','
  {
    GateListForm(str);
    if |str| == 0 {
      return false;
    }
    if str[0] < '0' || str[0] > '7' {
      return false;
    }
    var i := 1;
    while i < |str|
      invariant 1 <= i <= |str| && IsGateDigit(str[i - 1])
      invariant IsGateList(str) <==> IsGateList(str[i - 1..])
      decreases |str| - i
    {
      if str[i] != ',' {
        return false;
      }
      if i + 1 == |str| {
        return false;
      }
      if str[i + 1] < '0' || str[i + 1] > '7' {
        return false;
      }
      assert str[i - 1..][2..] == str[i + 1..];
      i := i + 2;
    }
    return true;
  }

  // ----- accepted lists

  lemma DigitReads(b: nat)
    requires b < 10
    ensures Atoi([Digit(b)]) == b && Atoi([' ', Digit(b)]) == b && IsDigit(Digit(b)) && Digit(b) != ','
  {
    var s := [Digit(b)];
    assert s[0] as int == '0' as int + b && IsDigit(s[0]) && !IsSpace(s[0]);
    assert s[1..] == [];
    assert DigitsValue(s, 0) == DigitsValue(s[1..], b) == b;
    assert [' ', Digit(b)][1..] == s;
  }

  /** An accepted list names exactly the digits that occur in it. */
  lemma {:induction false} AcceptedNames(s: string)
    requires IsGateList(s)
    ensures forall b: nat :: b < NUM_GATES ==> (Names(Tokens(s), b) <==> Digit(b) in s)
    decreases |s|
  {
    var d: nat := s[0] as int - '0' as int;
    var rest := if |s| == 1 then "" else s[2..];
    assert s[0] == Digit(d);
    DigitReads(d);
    FirstToken(s);
    if |s| > 1 {
      AcceptedNames(rest);
      assert s == [s[0], ','] + rest;
    }
    forall b: nat | b < NUM_GATES
      ensures Names(Tokens(s), b) <==> Digit(b) in s
    {
      DigitsDiffer(b, d);
      NamesFirst([s[0]], Tokens(rest), b);
    }
  }

  lemma FirstToken(s: string)
    requires IsGateList(s)
    ensures Tokens(s) == [[s[0]]] + Tokens(if |s| == 1 then "" else s[2..])
  {
    assert TokenEnd(s, 0) == 1;
    assert s[..1] == [s[0]];
    if |s| > 1 {
      assert s[1..][1..] == s[2..];
    }
  }

  lemma NamesFirst(t: string, rest: seq<string>, b: int)
    ensures Names([t] + rest, b) <==> Atoi(t) == b || Names(rest, b)
  {
  }

  lemma DigitsDiffer(b: nat, d: nat)
    requires b < NUM_GATES && d < NUM_GATES
    ensures Digit(b) == Digit(d) <==> b == d
    ensures Digit(b) != ','
  {
  }

  /** Reading an accepted list opens gate b if and only if digit b occurs, so order and repetition
      do not matter. */
  lemma AcceptedGates(s: string)
    requires IsGateList(s)
    ensures NamedGates(Tokens(s)) == set b: nat | b < NUM_GATES && Digit(b) in s
  {
    AcceptedNames(s);
  }

  // ----- printing

  /** The open gates below n, highest first. */
  function GatesDown(state: bv8, n: nat): seq<nat>
    requires n <= NUM_GATES
  {
    if n == 0 then []
    else (if IsOpen(state, n - 1) then [n - 1] else []) + GatesDown(state, n - 1)
  }

  /** Digits with a comma and a space between them. */
  function Text(gates: seq<nat>): string
    requires forall i :: 0 <= i < |gates| ==> gates[i] < NUM_GATES
  {
    if |gates| == 0 then ""
    else if |gates| == 1 then [Digit(gates[0])]
    else Text(gates[..|gates| - 1]) + ", " + [Digit(gates[|gates| - 1])]
  }

  lemma {:induction false} GatesDownAre(state: bv8, n: nat)
    requires n <= NUM_GATES
    ensures forall i :: 0 <= i < |GatesDown(state, n)| ==> GatesDown(state, n)[i] < n
    ensures |GatesDown(state, n)| <= n
    ensures forall b: nat :: b < n ==> (b in GatesDown(state, n) <==> IsOpen(state, b))
  {
    if n > 0 {
      GatesDownAre(state, n - 1);
    }
  }

  lemma {:induction false} GatesDescend(state: bv8, n: nat)
    requires n <= NUM_GATES
    ensures forall i, j :: 0 <= i < j < |GatesDown(state, n)| ==> GatesDown(state, n)[i] > GatesDown(state, n)[j]
  {
    hide IsOpen;
    if n > 0 {
      GatesDescend(state, n - 1);
      GatesDownAre(state, n - 1);
    }
  }

  lemma GatesDownNext(state: bv8, n: nat)
    requires n <= NUM_GATES
    ensures GatesDown(state, n) == if n == 0 then [] else
              (if IsOpen(state, n - 1) then [n - 1] else []) + GatesDown(state, n - 1)
  {
  }

  lemma TextNext(gates: seq<nat>, gate: nat)
    requires gate < NUM_GATES && forall i :: 0 <= i < |gates| ==> gates[i] < NUM_GATES
    ensures Text(gates + [gate]) == (if |gates| == 0 then "" else Text(gates) + ", ") + [Digit(gate)]
  {
  }

  /** Three characters for each gate but the last: digit, comma, space. */
  lemma {:induction false} TextLayout(gates: seq<nat>, i: nat)
    requires (forall k :: 0 <= k < |gates| ==> gates[k] < NUM_GATES) && i < |gates|
    ensures |Text(gates)| == 3 * |gates| - 2 && Text(gates)[3 * i] == Digit(gates[i])
    ensures i + 1 < |gates| ==> Text(gates)[3 * i + 1] == ',' && Text(gates)[3 * i + 2] == ' '
    decreases |gates|
  {
    if |gates| > 1 {
      TextLayout(gates[..|gates| - 1], if i + 1 < |gates| then i else 0);
    }
  }

  lemma NoText()
    ensures Text([]) == ""
  {
  }

  method GclStateToCsv(state: bv8) returns (text: string)
    ensures (forall i :: 0 <= i < |GatesDown(state, NUM_GATES)| ==> GatesDown(state, NUM_GATES)[i] < NUM_GATES)
            && text == Text(GatesDown(state, NUM_GATES))
  {
    hide Text, IsOpen, GatesDown, Digit, Mask;
    GatesDownAre(state, NUM_GATES);
    NoText();
    var first := true;
    text := "";
    var i := NUM_GATES;
    ghost var done: seq<nat> := [];
    while i > 0
      invariant 0 <= i <= NUM_GATES
      invariant done + GatesDown(state, i) == GatesDown(state, NUM_GATES)
      invariant first <==> |done| == 0
      invariant forall k :: 0 <= k < |done| ==> done[k] < NUM_GATES
      invariant text == Text(done)
    {
      GatesStep(done, state, i);
      i := i - 1;
      if IsOpen(state, i) {
        if !first {
          text := text + ", ";
        }
        text := text + [Digit(i)];
        first := false;
        TextNext(done, i);
        done := done + [i];
      }
    }
    GatesDownNext(state, 0);
    assert done + GatesDown(state, 0) == done;
  }

  lemma GatesStep(done: seq<nat>, state: bv8, i: nat)
    requires 0 < i <= NUM_GATES
    ensures done + GatesDown(state, i) ==
            (if IsOpen(state, i - 1) then done + [i - 1] else done) + GatesDown(state, i - 1)
  {
    hide GatesDown, IsOpen;
    GatesDownNext(state, i);
  }

  /** The tokens of a printed text: the first digit bare, the others behind a space. */
  function PrintedTokens(gates: seq<nat>): seq<string>
    requires forall i :: 0 <= i < |gates| ==> gates[i] < NUM_GATES
  {
    seq(|gates|, i requires 0 <= i < |gates| => if i == 0 then [Digit(gates[i])] else [' ', Digit(gates[i])])
  }

  /** strtok and atoi see through the spaces of a printed text. */
  lemma {:induction false} TokensOfText(gates: seq<nat>)
    requires forall i :: 0 <= i < |gates| ==> gates[i] < NUM_GATES
    ensures Tokens(Text(gates)) == PrintedTokens(gates)
    decreases |gates|
  {
    hide Digit;
    if |gates| > 0 {
      var last := |gates| - 1;
      var init, gate := gates[..last], gates[last];
      DigitsDiffer(gate, gate);
      if last == 0 {
        var s := [Digit(gate)];
        assert TokenEnd(s, 0) == 1 && s[..1] == s && s[1..] == [];
      } else {
        TokensOfText(init);
        TokensAppend(Text(init), [' ', Digit(gate)]);
        assert Text(gates) == Text(init) + [','] + [' ', Digit(gate)];
      }
      assert PrintedTokens(gates) == PrintedTokens(init) +
                                     [if last == 0 then [Digit(gate)] else [' ', Digit(gate)]];
    }
  }

  /** One more token behind a comma. */
  lemma TokensAppend(s: string, token: string)
    requires |token| > 0 && forall k :: 0 <= k < |token| ==> token[k] != ','
    ensures Tokens(s + [','] + token) == Tokens(s) + [token]
  {
    TokensConcat(s, token);
    OneToken(token);
  }

  lemma OneToken(token: string)
    requires |token| > 0 && forall k :: 0 <= k < |token| ==> token[k] != ','
    ensures Tokens(token) == [token]
  {
    assert TokenEnd(token, 0) == |token|;
    assert token[..|token|] == token;
  }

  lemma TokenEndSame(s: string, whole: string, j: nat)
    requires |s| < |whole| && whole[..|s|] == s && whole[|s|] == ',' && j == TokenEnd(s, 0)
    ensures TokenEnd(whole, 0) == j
  {
  }

  lemma PrintedNames(gates: seq<nat>)
    requires forall i :: 0 <= i < |gates| ==> gates[i] < NUM_GATES
    ensures forall b: nat :: b < NUM_GATES ==> (Names(PrintedTokens(gates), b) <==> b in gates)
  {
    hide Atoi, Digit;
    forall i | 0 <= i < |gates|
      ensures Atoi(PrintedTokens(gates)[i]) == gates[i]
    {
      DigitReads(gates[i]);
    }
    forall b: nat | b < NUM_GATES
      ensures Names(PrintedTokens(gates), b) <==> b in gates
    {
      if b in gates {
        var i :| 0 <= i < |gates| && gates[i] == b;
        assert PrintedTokens(gates)[i] in PrintedTokens(gates);
      }
    }
  }

  /** Reading back what was printed gives the same state, for all 256 of them. */
  method PrintThenRead(state: bv8) returns (back: bv8)
    ensures back == state
  {
    hide GatesDown, Text, Tokens, Names, IsOpen, PrintedTokens;
    var text := GclStateToCsv(state);
    back := GclCsvToUint(text);
    PrintedGates(state);
    StateFromGates(back, state);
  }

  /** The text of a state names exactly its open gates. */
  lemma PrintedGates(state: bv8)
    ensures forall i :: 0 <= i < |GatesDown(state, NUM_GATES)| ==> GatesDown(state, NUM_GATES)[i] < NUM_GATES
    ensures NamedGates(Tokens(Text(GatesDown(state, NUM_GATES)))) == OpenGates(state)
  {
    hide GatesDown, Text, Tokens, Names, IsOpen, PrintedTokens;
    GatesDownAre(state, NUM_GATES);
    TokensOfText(GatesDown(state, NUM_GATES));
    PrintedNames(GatesDown(state, NUM_GATES));
  }

  /** The validator accepts a printed text only if exactly one gate is open: it knows no space
      after a comma, and no empty list. */
  lemma PrintedAcceptedIff(state: bv8)
    ensures forall i :: 0 <= i < |GatesDown(state, NUM_GATES)| ==> GatesDown(state, NUM_GATES)[i] < NUM_GATES
    ensures IsGateList(Text(GatesDown(state, NUM_GATES))) <==> |GatesDown(state, NUM_GATES)| == 1
  {
    hide GatesDown;
    GatesDownAre(state, NUM_GATES);
    TextAcceptedIff(GatesDown(state, NUM_GATES));
  }

  lemma TextAcceptedIff(gates: seq<nat>)
    requires forall i :: 0 <= i < |gates| ==> gates[i] < NUM_GATES
    ensures IsGateList(Text(gates)) <==> |gates| == 1
  {
    if |gates| > 1 {
      ManyNotAccepted(gates);
    }
  }

  lemma ManyNotAccepted(gates: seq<nat>)
    requires |gates| > 1 && forall i :: 0 <= i < |gates| ==> gates[i] < NUM_GATES
    ensures !IsGateList(Text(gates))
  {
    hide IsGateList, Text;
    SpaceInText(gates);
    NoSpaceInList(Text(gates));
  }

  lemma SpaceInText(gates: seq<nat>)
    requires |gates| > 1 && forall i :: 0 <= i < |gates| ==> gates[i] < NUM_GATES
    ensures ' ' in Text(gates)
  {
  }

  lemma {:induction false} NoSpaceInList(s: string)
    ensures IsGateList(s) ==> ' ' !in s
    decreases |s|
  {
    if |s| > 1 {
      NoSpaceInList(s[2..]);
      assert s == [s[0], s[1]] + s[2..];
    }
  }

  /** A printed text fits the buffer it is built in. */
  lemma PrintedFits(state: bv8)
    ensures forall i :: 0 <= i < |GatesDown(state, NUM_GATES)| ==> GatesDown(state, NUM_GATES)[i] < NUM_GATES
    ensures |Text(GatesDown(state, NUM_GATES))| < MAX_GCL_CSV_LEN
  {
    hide GatesDown;
    GatesDownAre(state, NUM_GATES);
    TextLength(GatesDown(state, NUM_GATES));
  }

  lemma {:induction false} TextLength(gates: seq<nat>)
    requires forall i :: 0 <= i < |gates| ==> gates[i] < NUM_GATES
    ensures |Text(gates)| <= 3 * |gates|
  {
    if |gates| > 1 {
      TextLength(gates[..|gates| - 1]);
    }
  }
}
