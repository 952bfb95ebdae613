/** Clock disciplining: a PI controller over frequency samples, split into a fixed-point preset
    and written lazily to the registers of the transceiver PLL or of the clock conditioning
    circuitry. Doubles are reals; registers are 32-bit words. */
module Japll {

  const INITIAL_PPB_SETTLE_COUNT: int := 1
  const INT_MAX: int := 0x7FFF_FFFF
  const REGISTERS: nat := 64
  const XCVR_INT_PRESET: nat := 0xE
  const XCVR_FRAC_PRESET: nat := 0xD
  const TXPLL_DIV_2_XCVR: nat := 0x5
  const CCC_FRACN_ENABLE: nat := 0x3
  const CCC_INT_PRESET: nat := 0xB
  const CCC_FRAC_PRESET: nat := 0x9
  const TXPLL_DIV_2_CCC: nat := 0x2
  const CCC_INT_MASK: bv32 := 0xFFF
  const CCC_FRAC_MASK: bv32 := 0x3FFFFFC0
  const FRAC_SCALE: real := 16777216.0  // 2^24
  const FRAC_DIVIDER: real := 1000000000.0

  datatype ClockSource = Xcvr | Ccc

  datatype Conf = Conf(piEnable: bool, writeEnable: bool, kp: real, ki: real, dt: real, setPoint: real,
                       source: ClockSource, refClock: real)

  type Registers = regs: seq<bv32> | |regs| == REGISTERS witness seq(REGISTERS, _ => 0)

  datatype State = State(integer: int, fraction: int, intWritten: bool, fracWritten: bool, base: real,
                         preInteger: bv32, preFraction: bv32, integral: real, iterations: int, regs: Registers)

  // ----- arithmetic of the preset

  /** Conversion of a double to an integer type drops the fraction. */
  function Trunc(x: real): int {
    if x >= 0.0 then x.Floor else -((-x).Floor)
  }

  /** A 32-bit integer as it is stored in a register. */
  function U32(n: int): bv32 {
    (n % 0x1_0000_0000) as bv32
  }

  function Total(base: real, ppb: real): real {
    base * (ppb / FRAC_DIVIDER + 1.0)
  }

  function FractionOf(total: real, integer: int): int {
    Trunc((total - integer as real) * FRAC_SCALE)
  }

  /** Splitting a preset into integer and 24-bit fraction is exact fixed-point truncation. */
  lemma FixedPoint(total: real)
    requires total >= 0.0
    ensures var i := Trunc(total);
            var f := FractionOf(total, i);
            && 0 <= i && 0 <= f < 0x100_0000
            && i * 0x100_0000 + f == (total * FRAC_SCALE).Floor
  {
  }

  // ----- register words

  function IntRegister(c: Conf): nat {
    if c.source == Ccc then CCC_INT_PRESET else XCVR_INT_PRESET
  }

  function FracRegister(c: Conf): nat {
    if c.source == Ccc then CCC_FRAC_PRESET else XCVR_FRAC_PRESET
  }

  function CccInt(pre: bv32, i: bv32): bv32 {
    pre | (i & CCC_INT_MASK)
  }

  function CccFrac(pre: bv32, f: bv32): bv32 {
    pre | ((f << 6) & CCC_FRAC_MASK)
  }

  /** The transceiver takes its fraction in two writes: first with preset disabled and hold
      enabled, then with both enabled. */
  function XcvrHold(f: bv32): bv32 {
    (f & 0xFEFFFFFF) | 0x02000000
  }

  function XcvrFrac(f: bv32): bv32 {
    f | 0x03000000
  }

  function IntWord(c: Conf, pre: bv32, integer: int): bv32 {
    if c.source == Ccc then CccInt(pre, U32(integer)) else U32(integer)
  }

  function FracWord(c: Conf, pre: bv32, fraction: int): bv32 {
    if c.source == Ccc then CccFrac(pre, U32(fraction)) else XcvrFrac(U32(fraction))
  }

  function Outside(w: bv32, mask: bv32): bv32 {
    w & !mask
  }

  function Low12(w: bv32): bv32 {
    w & 0xFFF
  }

  function Low24(w: bv32): bv32 {
    w & 0xFFFFFF
  }

  /** The bits of the registers beside the preset fields. */
  function CccIntRest(w: bv32): bv32 {
    w & 0xFFFFF000
  }

  function CccFracRest(w: bv32): bv32 {
    w & 0xC000003F
  }

  /** Bit 24 enables the preset, bit 25 the hold. */
  function XcvrControl(w: bv32): bv32 {
    w & 0x03000000
  }

  /** The preset fields of the two registers, moved down to bit 0. */
  function IntField(c: Conf, regs: Registers): bv32 {
    Low12(regs[IntRegister(c)])
  }

  function FracField(c: Conf, regs: Registers): bv32 {
    if c.source == Ccc then CccFracField(regs[CCC_FRAC_PRESET]) else Low24(regs[XCVR_FRAC_PRESET])
  }

  function CccFracField(word: bv32): bv32 {
    (word >> 6) & 0xFFFFFF
  }

  lemma SmallInteger(n: int)
    requires 0 <= n < 4096
    ensures Low12(U32(n)) == U32(n)
  {
    hide U32, Low12;
    PositiveWord(n);
    SmallWord12(n);
    Low12Keeps(U32(n));
  }

  /** Small numbers stay small as words. */
  lemma SmallWord12(n: int)
    requires 0 <= n < 4096
    ensures (n as bv32) < 4096
  {
  }

  lemma SmallWord24(n: int)
    requires 0 <= n < 0x100_0000
    ensures (n as bv32) < 0x100_0000
  {
  }

  lemma PositiveWord(n: int)
    requires 0 <= n < 0x1_0000_0000
    ensures U32(n) == n as bv32
  {
  }

  lemma Low12Keeps(w: bv32)
    requires w < 4096
    ensures Low12(w) == w
  {
  }

  lemma Low24Keeps(w: bv32)
    requires w < 0x100_0000
    ensures Low24(w) == w
  {
  }

  lemma SmallFraction(n: int)
    requires 0 <= n < 0x100_0000
    ensures Low24(U32(n)) == U32(n)
  {
    hide U32, Low24;
    PositiveWord(n);
    SmallWord24(n);
    Low24Keeps(U32(n));
  }

  /** The integer field takes the low 12 bits and leaves all startup bits beside it; it holds the
      whole integer exactly when the range check of the code is silent. */
  lemma CccIntBits(pre: bv32, i: bv32)
    requires CccIntRest(pre) == pre
    ensures Low12(CccInt(pre, i)) == Low12(i)
    ensures CccIntRest(CccInt(pre, i)) == pre
    ensures Low12(CccInt(pre, i)) == i <==> i >> 12 == 0
  {
  }

  /** The fraction field takes the low 24 bits and leaves all startup bits beside it. */
  lemma CccFracBits(pre: bv32, f: bv32)
    requires CccFracRest(pre) == pre
    ensures CccFracField(CccFrac(pre, f)) == Low24(f)
    ensures CccFracRest(CccFrac(pre, f)) == pre
  {
  }

  /** The control bits go from hold alone to hold and preset, with the fraction intact in both. */
  lemma XcvrFracBits(f: bv32)
    ensures Low24(XcvrHold(f)) == Low24(XcvrFrac(f)) == Low24(f)
    ensures XcvrControl(XcvrHold(f)) == 0x02000000 && XcvrControl(XcvrFrac(f)) == 0x03000000
  {
  }

  // ----- the controller

  function Presets(s: State, ppb: real): State {
    var total := Total(s.base, ppb);
    var integer := Trunc(total);
    s.(integer := integer, intWritten := s.intWritten && s.integer == integer,
       fraction := FractionOf(total, integer), fracWritten := false)
  }

  /** The integer preset, if it is not in its register yet. */
  function WithInteger(c: Conf, s: State): State {
    if s.intWritten then s
    else s.(intWritten := true, regs := s.regs[IntRegister(c) := IntWord(c, s.preInteger, s.integer)])
  }

  /** The fraction preset, likewise. */
  function WithFraction(c: Conf, s: State): State {
    if s.fracWritten then s
    else s.(fracWritten := true, regs := s.regs[FracRegister(c) := FracWord(c, s.preFraction, s.fraction)])
  }

  function Configure(c: Conf, s: State): State {
    WithFraction(c, WithInteger(c, s))
  }

  function IntegerWrites(c: Conf, s: State): seq<(nat, bv32)> {
    if s.intWritten then [] else [(IntRegister(c), IntWord(c, s.preInteger, s.integer))]
  }

  /** A transceiver fraction goes through the hold word. */
  function FractionWrites(c: Conf, s: State): seq<(nat, bv32)> {
    if s.fracWritten then []
    else if c.source == Ccc then [(FracRegister(c), FracWord(c, s.preFraction, s.fraction))]
    else [(FracRegister(c), XcvrHold(U32(s.fraction))), (FracRegister(c), FracWord(c, s.preFraction, s.fraction))]
  }

  /** The register writes of one configure call, in order. */
  function ConfigureWrites(c: Conf, s: State): seq<(nat, bv32)> {
    IntegerWrites(c, s) + FractionWrites(c, s)
  }

  function Apply(c: Conf, s: State, ppb: real): State {
    if c.writeEnable then Configure(c, Presets(s, ppb)) else s
  }

  /** The proportional term. */
  function PCal(c: Conf, error: real): real {
    c.kp * error
  }

  /** What one error adds to the integral. */
  function ITerm(c: Conf, error: real): real {
    error * c.ki * c.dt
  }

  function Integrate(c: Conf, s: State, error: real): State {
    s.(integral := s.integral + ITerm(c, error))
  }

  function Bump(iterations: int): int {
    if iterations + 1 == INT_MAX then INITIAL_PPB_SETTLE_COUNT + 1 else iterations + 1
  }

  /** One frequency sample. */
  function Sample(c: Conf, s: State, ppb: real): State {
    if s.iterations < INITIAL_PPB_SETTLE_COUNT then
      s.(iterations := s.iterations + 1)
    else if s.iterations == INITIAL_PPB_SETTLE_COUNT then
      Apply(c, s, ppb).(iterations := s.iterations + 1)
    else
      var error := c.setPoint - ppb;
      var s1 := if c.piEnable then Integrate(c, s, error) else s;
      var freq := if c.piEnable then PCal(c, error) + s1.integral else ppb;
      Apply(c, s1, freq).(iterations := Bump(s.iterations))
  }

  function Run(c: Conf, s: State, samples: seq<real>): State {
    if |samples| == 0 then s
    else Sample(c, Run(c, s, samples[..|samples| - 1]), samples[|samples| - 1])
  }

  function RefDiv(c: Conf, regs: Registers): int {
    if c.source == Ccc then ((regs[TXPLL_DIV_2_CCC] & 0x3F00) >> 8) as int
    else ((regs[TXPLL_DIV_2_XCVR] & 0x3F000000) >> 24) as int
  }

  /** The state after startup. */
  function Init(c: Conf, regs: Registers): State
    requires c.refClock != 0.0
  {
    var mult := if c.source == Ccc then 40.0 else 20.0;
    var base := 125.0 * mult * (RefDiv(c, regs) as real) / c.refClock;
    State(Trunc(base), FractionOf(base, Trunc(base)), false, false, base,
          if c.source == Ccc then Outside(regs[CCC_INT_PRESET], CCC_INT_MASK) else 0,
          if c.source == Ccc then Outside(regs[CCC_FRAC_PRESET], CCC_FRAC_MASK) else 0,
          0.0, 0,
          if c.source == Ccc then regs[CCC_FRACN_ENABLE := 1] else regs)
  }

  // ----- lazy writes refine eager ones

  /** A register marked as written holds the current preset, and only field bits ever differ from
      the startup values. */
  ghost predicate Synced(c: Conf, s: State) {
    && (s.intWritten ==> s.regs[IntRegister(c)] == IntWord(c, s.preInteger, s.integer))
    && (s.fracWritten ==> s.regs[FracRegister(c)] == FracWord(c, s.preFraction, s.fraction))
  }

  /** What writing both presets on every sample would leave. */
  function Eager(c: Conf, s: State, ppb: real): Registers {
    var total := Total(s.base, ppb);
    var integer := Trunc(total);
    s.regs[IntRegister(c) := IntWord(c, s.preInteger, integer)]
          [FracRegister(c) := FracWord(c, s.preFraction, FractionOf(total, integer))]
  }

  lemma LazyRefinesEager(c: Conf, s: State, ppb: real)
    requires Synced(c, s)
    ensures Configure(c, Presets(s, ppb)).regs == Eager(c, s, ppb)
    ensures Synced(c, Configure(c, Presets(s, ppb)))
  {
    hide IntWord, FracWord, Total, Trunc, FractionOf, WithInteger, WithFraction, IntRegister, FracRegister;
    var s1 := Presets(s, ppb);
    RegistersDiffer(c);
    IntegerInPlace(c, s1);
    FractionInPlace(c, WithInteger(c, s1));
  }

  /** Written now or before, the integer preset is in its register. */
  lemma IntegerInPlace(c: Conf, s: State)
    requires s.intWritten ==> s.regs[IntRegister(c)] == IntWord(c, s.preInteger, s.integer)
    ensures var r := WithInteger(c, s);
            && r == s.(intWritten := true, regs := r.regs)
            && r.regs == s.regs[IntRegister(c) := IntWord(c, s.preInteger, s.integer)]
  {
    hide IntWord;
  }

  lemma FractionInPlace(c: Conf, s: State)
    requires s.fracWritten ==> s.regs[FracRegister(c)] == FracWord(c, s.preFraction, s.fraction)
    ensures var r := WithFraction(c, s);
            && r == s.(fracWritten := true, regs := r.regs)
            && r.regs == s.regs[FracRegister(c) := FracWord(c, s.preFraction, s.fraction)]
  {
    hide FracWord;
  }

  lemma RegistersDiffer(c: Conf)
    ensures IntRegister(c) != FracRegister(c) && IntRegister(c) < REGISTERS && FracRegister(c) < REGISTERS
  {
  }

  // ----- whole runs

  function ErrorSum(c: Conf, samples: seq<real>): real {
    if |samples| == 0 then 0.0
    else ErrorSum(c, samples[..|samples| - 1]) + (c.setPoint - samples[|samples| - 1])
  }

  function IntegralOf(c: Conf, errors: real): real {
    c.ki * c.dt * errors
  }

  /** The frequency correction the last of at least two samples leads to: the second sample is
      taken as it is, later ones go through the PI controller if that is enabled. */
  function Correction(c: Conf, samples: seq<real>): real
    requires |samples| >= 2
  {
    var last := samples[|samples| - 1];
    if |samples| == 2 || !c.piEnable then last
    else PCal(c, c.setPoint - last) + IntegralOf(c, ErrorSum(c, samples[2..]))
  }

  /** The settle phases take one sample each and are never entered again. */
  ghost predicate PhaseAfter(iterations: int, k: nat) {
    if k < 2 then iterations == k else 2 <= iterations < INT_MAX
  }

  /** The state after k samples, register contents aside. */
  lemma {:induction false} RunBookkeeping(c: Conf, s0: State, samples: seq<real>)
    requires s0.iterations == 0 && s0.integral == 0.0
    ensures var s := Run(c, s0, samples);
            && PhaseAfter(s.iterations, |samples|)
            && s.integral == (if |samples| <= 2 || !c.piEnable then 0.0 else IntegralOf(c, ErrorSum(c, samples[2..])))
            && s.base == s0.base && s.preInteger == s0.preInteger && s.preFraction == s0.preFraction
    decreases |samples|
  {
    hide Sample, ITerm, IntegralOf;
    if |samples| > 0 {
      var k := |samples| - 1;
      var init, last := samples[..k], samples[k];
      RunBookkeeping(c, s0, init);
      SampleBookkeeping(c, Run(c, s0, init), last);
      if k >= 2 {
        assert samples[2..][..k - 2] == init[2..];
        IntegralGrows(c, ErrorSum(c, init[2..]), c.setPoint - last);
      }
      if k == 2 {
        assert init[2..] == [];
      }
    }
  }

  lemma SampleBookkeeping(c: Conf, s: State, ppb: real)
    ensures var r := Sample(c, s, ppb);
            && r.base == s.base && r.preInteger == s.preInteger && r.preFraction == s.preFraction
            && r.iterations == (if s.iterations <= INITIAL_PPB_SETTLE_COUNT then s.iterations + 1 else Bump(s.iterations))
            && r.integral == if s.iterations > INITIAL_PPB_SETTLE_COUNT && c.piEnable
                             then s.integral + ITerm(c, c.setPoint - ppb) else s.integral
  {
    hide ITerm, PCal, Apply;
    var s1 := if c.piEnable then Integrate(c, s, c.setPoint - ppb) else s;
    ApplySpares(c, s, ppb);
    ApplySpares(c, s1, if c.piEnable then PCal(c, c.setPoint - ppb) + s1.integral else ppb);
  }

  /** What applying a frequency leaves alone. */
  lemma ApplySpares(c: Conf, s: State, ppb: real)
    ensures var r := Apply(c, s, ppb);
            && r.base == s.base && r.preInteger == s.preInteger && r.preFraction == s.preFraction
            && r.iterations == s.iterations && r.integral == s.integral
  {
    hide Total, Trunc, FractionOf, IntWord, FracWord;
  }

  lemma IntegralGrows(c: Conf, errors: real, error: real)
    ensures IntegralOf(c, errors) + ITerm(c, error) == IntegralOf(c, errors + error)
    ensures IntegralOf(c, 0.0) == 0.0
  {
  }

  /** After two or more samples the registers are the startup ones with the presets of the latest
      correction in place, whatever was or was not written on the way; before that, and always
      when writing is disabled, they are untouched. */
  lemma {:induction false} RunRegisters(c: Conf, s0: State, samples: seq<real>)
    requires s0.iterations == 0 && s0.integral == 0.0 && !s0.intWritten && !s0.fracWritten
    ensures var s := Run(c, s0, samples);
            && Synced(c, s)
            && s.regs == if |samples| < 2 || !c.writeEnable then s0.regs else Eager(c, s0, Correction(c, samples))
    decreases |samples|
  {
    hide ITerm, PCal, IntegralOf, Correction, Total, Trunc, FractionOf, IntWord, FracWord;
    if |samples| > 0 {
      var k := |samples| - 1;
      var before := Run(c, s0, samples[..k]);
      RunBookkeeping(c, s0, samples[..k]);
      RunRegisters(c, s0, samples[..k]);
      if k == 0 {
        assert Run(c, s0, samples).regs == before.regs;
      } else {
        LatestCorrection(c, s0, samples);
        EagerIsBeside(c, s0, samples[..k]);
        SampleWrites(c, s0, before, samples[k], Correction(c, samples));
      }
    }
  }

  lemma EagerIsBeside(c: Conf, s0: State, samples: seq<real>)
    ensures |samples| >= 2 ==> SameBeside(c, s0.regs, Eager(c, s0, Correction(c, samples)))
  {
    hide IntWord, FracWord, FractionOf, Total, Trunc;
  }

  /** What sample k applies, from the state the earlier samples left. */
  lemma LatestCorrection(c: Conf, s0: State, samples: seq<real>)
    requires s0.iterations == 0 && s0.integral == 0.0 && |samples| >= 2
    ensures var before := Run(c, s0, samples[..|samples| - 1]);
            Correction(c, samples) == Frequency(c, before, samples[|samples| - 1])
  {
    hide Sample, ITerm, IntegralOf, PCal;
    var k := |samples| - 1;
    var init, last := samples[..k], samples[k];
    RunBookkeeping(c, s0, init);
    if k >= 2 {
      assert samples[2..][..k - 2] == init[2..];
      IntegralGrows(c, ErrorSum(c, init[2..]), c.setPoint - last);
      if k == 2 {
        assert init[2..] == [];
      }
    }
  }

  /** The frequency one sample applies. */
  function Frequency(c: Conf, s: State, ppb: real): real {
    if s.iterations <= INITIAL_PPB_SETTLE_COUNT || !c.piEnable then ppb
    else PCal(c, c.setPoint - ppb) + (s.integral + ITerm(c, c.setPoint - ppb))
  }

  /** Only the two preset registers may differ. */
  ghost predicate SameBeside(c: Conf, a: Registers, b: Registers) {
    forall r :: 0 <= r < REGISTERS && r != IntRegister(c) && r != FracRegister(c) ==> a[r] == b[r]
  }

  lemma EagerIsSame(c: Conf, s0: State, s: State, freq: real)
    requires SameBeside(c, s0.regs, s.regs) && s.base == s0.base
    requires s.preInteger == s0.preInteger && s.preFraction == s0.preFraction
    ensures Eager(c, s, freq) == Eager(c, s0, freq)
  {
    hide IntWord, FracWord, FractionOf, Total, Trunc;
  }

  lemma SampleWrites(c: Conf, s0: State, s: State, ppb: real, freq: real)
    requires s.iterations >= INITIAL_PPB_SETTLE_COUNT && freq == Frequency(c, s, ppb)
    requires Synced(c, s) && SameBeside(c, s0.regs, s.regs) && s.base == s0.base
    requires s.preInteger == s0.preInteger && s.preFraction == s0.preFraction
    ensures Synced(c, Sample(c, s, ppb))
    ensures Sample(c, s, ppb).regs == if c.writeEnable then Eager(c, s0, freq) else s.regs
  {
    hide IntWord, FracWord, Eager, Presets, Configure, ITerm, PCal;
    var s1 := if s.iterations > INITIAL_PPB_SETTLE_COUNT && c.piEnable
              then Integrate(c, s, c.setPoint - ppb) else s;
    LazyRefinesEager(c, s1, freq);
    EagerIsSame(c, s0, s1, freq);
  }

  /** What the fields hold once both words are written. */
  lemma EagerFields(c: Conf, s0: State, freq: real)
    requires CccIntRest(s0.preInteger) == s0.preInteger && CccFracRest(s0.preFraction) == s0.preFraction
    ensures var total := Total(s0.base, freq);
            var regs := Eager(c, s0, freq);
            && IntField(c, regs) == Low12(U32(Trunc(total)))
            && FracField(c, regs) == Low24(U32(FractionOf(total, Trunc(total))))
            && (c.source == Ccc ==> CccIntRest(regs[CCC_INT_PRESET]) == s0.preInteger
                                    && CccFracRest(regs[CCC_FRAC_PRESET]) == s0.preFraction)
            && (c.source == Xcvr ==> XcvrControl(regs[XCVR_FRAC_PRESET]) == 0x03000000)
  {
    hide U32, Total, FractionOf, Trunc, CccInt, CccFrac, XcvrFrac, CccFracField, Low12, Low24,
         CccIntRest, CccFracRest, XcvrControl, Eager;
    var total := Total(s0.base, freq);
    EagerWords(c, s0, freq);
    CccIntBits(s0.preInteger, U32(Trunc(total)));
    CccFracBits(s0.preFraction, U32(FractionOf(total, Trunc(total))));
    XcvrFracBits(U32(FractionOf(total, Trunc(total))));
  }

  lemma EagerWords(c: Conf, s0: State, freq: real)
    ensures var total := Total(s0.base, freq);
            var regs := Eager(c, s0, freq);
            && regs[IntRegister(c)] == IntWord(c, s0.preInteger, Trunc(total))
            && regs[FracRegister(c)] == FracWord(c, s0.preFraction, FractionOf(total, Trunc(total)))
            && SameBeside(c, s0.regs, regs)
  {
  }

  lemma InitKeeps(c: Conf, startup: Registers)
    requires c.refClock != 0.0
    ensures var s0 := Init(c, startup);
            && CccIntRest(s0.preInteger) == s0.preInteger && CccFracRest(s0.preFraction) == s0.preFraction
            && s0.iterations == 0 && s0.integral == 0.0 && !s0.intWritten && !s0.fracWritten
            && (c.source == Ccc ==> s0.preInteger == CccIntRest(startup[CCC_INT_PRESET])
                                    && s0.preFraction == CccFracRest(startup[CCC_FRAC_PRESET]))
            && s0.regs == if c.source == Ccc then startup[CCC_FRACN_ENABLE := 1] else startup
  {
    hide Outside, CccIntRest, CccFracRest, Trunc, FractionOf, RefDiv;
    MaskTwice(startup[CCC_INT_PRESET], startup[CCC_FRAC_PRESET]);
  }

  /** The whole-run result. The first sample changes nothing; from the second on, with u the
      correction of the samples so far, the two preset fields hold base * (1 + u / 10^9) in
      fixed point, truncated to 2^-24. */
  lemma WholeRun(c: Conf, startup: Registers, samples: seq<real>)
    requires c.refClock != 0.0 && c.writeEnable && |samples| >= 2
    requires 0.0 <= Total(Init(c, startup).base, Correction(c, samples)) < 4096.0
    ensures var total := Total(Init(c, startup).base, Correction(c, samples));
            var i, f := Trunc(total), FractionOf(total, Trunc(total));
            var regs := Run(c, Init(c, startup), samples).regs;
            && 0 <= i < 4096 && 0 <= f < 0x100_0000
            && i * 0x100_0000 + f == (total * FRAC_SCALE).Floor
            && IntField(c, regs) == U32(i) && FracField(c, regs) == U32(f)
  {
    hide U32, FractionOf, Total, IntField, FracField, Init, Eager, Correction, Run;
    var s0 := Init(c, startup);
    var total := Total(s0.base, Correction(c, samples));
    InitKeeps(c, startup);
    RunRegisters(c, s0, samples);
    FixedPoint(total);
    SmallInteger(Trunc(total));
    SmallFraction(FractionOf(total, Trunc(total)));
    EagerFields(c, s0, Correction(c, samples));
  }

  /** The two preset fields together hold total * 2^24, rounded down, if the integer fits. */
  ghost predicate Holds(c: Conf, regs: Registers, total: real) {
    0.0 <= total < 4096.0 ==>
      var n := (total * 16777216.0).Floor;
      && 0 <= n / 0x100_0000 < 4096
      && IntField(c, regs) == U32(n / 0x100_0000)
      && FracField(c, regs) == U32(n % 0x100_0000)
  }

  /** The whole run once more, in numbers: base is read off the startup registers, u is the second
      sample and then proportional plus integral term, and the registers hold
      base * (u / 10^9 + 1). */
  lemma ProgrammedNumber(c: Conf, startup: Registers, samples: seq<real>, divider: int, base: real, last: real, u: real)
    requires c.refClock != 0.0 && c.writeEnable && |samples| >= 2 && last == samples[|samples| - 1]
    requires divider == if c.source == Ccc then ((startup[0x2] & 0x3F00) >> 8) as int
                        else ((startup[0x5] & 0x3F000000) >> 24) as int
    requires base == (if c.source == Ccc then 125.0 * 40.0 else 125.0 * 20.0) * (divider as real) / c.refClock
    requires u == if |samples| == 2 || !c.piEnable then last
                  else c.kp * (c.setPoint - last)
                       + c.ki * c.dt * ((|samples| - 2) as real * c.setPoint - Sum(samples[2..]))
    ensures Holds(c, Run(c, Init(c, startup), samples).regs, base * (u / 1000000000.0 + 1.0))
  {
    hide Holds, Total, Init, Correction, Run, Sum;
    BaseInNumbers(c, startup);
    CorrectionInNumbers(c, samples);
    TotalInNumbers(base, u);
    TotalHeld(c, startup, samples);
  }

  lemma TotalHeld(c: Conf, startup: Registers, samples: seq<real>)
    requires c.refClock != 0.0 && c.writeEnable && |samples| >= 2
    ensures Holds(c, Run(c, Init(c, startup), samples).regs, Total(Init(c, startup).base, Correction(c, samples)))
  {
    hide U32, FractionOf, Total, Init, Correction, Run, Trunc, IntField, FracField;
    var total := Total(Init(c, startup).base, Correction(c, samples));
    if 0.0 <= total < 4096.0 {
      WholeRun(c, startup, samples);
      SplitNumber(total);
    }
  }

  lemma SplitNumber(total: real)
    requires total >= 0.0
    ensures var n := (total * 16777216.0).Floor;
            0 <= n && Trunc(total) == n / 0x100_0000 && FractionOf(total, Trunc(total)) == n % 0x100_0000
  {
    hide Trunc, FractionOf;
    FixedPoint(total);
  }

  lemma FieldsInNumbers(c: Conf, regs: Registers)
    ensures IntField(c, regs) == if c.source == Ccc then regs[0xB] & 0xFFF else regs[0xE] & 0xFFF
    ensures FracField(c, regs) == if c.source == Ccc then (regs[0x9] >> 6) & 0xFFFFFF else regs[0xD] & 0xFFFFFF
  {
  }

  function Sum(samples: seq<real>): real {
    if |samples| == 0 then 0.0 else Sum(samples[..|samples| - 1]) + samples[|samples| - 1]
  }

  lemma {:induction false} ErrorSumInNumbers(c: Conf, samples: seq<real>)
    ensures ErrorSum(c, samples) == |samples| as real * c.setPoint - Sum(samples)
  {
    if |samples| > 0 {
      var n := |samples| as real;
      ErrorSumInNumbers(c, samples[..|samples| - 1]);
      assert n * c.setPoint == (n - 1.0) * c.setPoint + c.setPoint;
    }
  }

  lemma CorrectionInNumbers(c: Conf, samples: seq<real>)
    requires |samples| >= 2
    ensures var last := samples[|samples| - 1];
            Correction(c, samples) ==
            if |samples| == 2 || !c.piEnable then last
            else c.kp * (c.setPoint - last)
                 + c.ki * c.dt * ((|samples| - 2) as real * c.setPoint - Sum(samples[2..]))
  {
    hide ErrorSum, Sum;
    ErrorSumInNumbers(c, samples[2..]);
  }

  lemma BaseInNumbers(c: Conf, startup: Registers)
    requires c.refClock != 0.0
    ensures var divider := if c.source == Ccc then ((startup[0x2] & 0x3F00) >> 8) as int
                           else ((startup[0x5] & 0x3F000000) >> 24) as int;
            Init(c, startup).base == (if c.source == Ccc then 125.0 * 40.0 else 125.0 * 20.0) * (divider as real) / c.refClock
    ensures Init(c, startup).regs == if c.source == Ccc then startup[0x3 := 1] else startup
  {
    hide Trunc, FractionOf, Outside;
  }

  /** The integer and the 24-bit fraction of base * (ppb / 10^9 + 1). */
  ghost predicate ArePresets(base: real, ppb: real, integer: int, fraction: int) {
    var total := base * (ppb / 1000000000.0 + 1.0);
    total >= 0.0 ==> integer == total.Floor && integer * 0x100_0000 + fraction == (total * 16777216.0).Floor
  }

  lemma PresetsInNumbers(s: State, ppb: real)
    ensures ArePresets(s.base, ppb, Presets(s, ppb).integer, Presets(s, ppb).fraction)
  {
    hide FractionOf, Total;
    TotalInNumbers(s.base, ppb);
    if Total(s.base, ppb) >= 0.0 {
      FixedPoint(Total(s.base, ppb));
    }
  }

  lemma TotalInNumbers(base: real, u: real)
    ensures Total(base, u) == base * (u / 1000000000.0 + 1.0)
  {
  }

  /** In every run, without any range condition: no startup bit beside the two fields changes, the
      transceiver ends with hold and preset on, and no other register is touched. */
  lemma StartupBitsKept(c: Conf, startup: Registers, samples: seq<real>)
    requires c.refClock != 0.0
    ensures var s0, regs := Init(c, startup), Run(c, Init(c, startup), samples).regs;
            && SameBeside(c, s0.regs, regs)
            && (c.source == Ccc ==>
                  && CccIntRest(regs[CCC_INT_PRESET]) == CccIntRest(startup[CCC_INT_PRESET])
                  && CccFracRest(regs[CCC_FRAC_PRESET]) == CccFracRest(startup[CCC_FRAC_PRESET]))
            && (c.source == Xcvr && c.writeEnable && |samples| >= 2 ==>
                  XcvrControl(regs[XCVR_FRAC_PRESET]) == 0x03000000)
  {
    hide U32, FractionOf, Total, Trunc, Init, Eager, Correction, Run, CccIntRest, CccFracRest, XcvrControl;
    var s0 := Init(c, startup);
    InitKeeps(c, startup);
    RunRegisters(c, s0, samples);
    MaskTwice(startup[CCC_INT_PRESET], startup[CCC_FRAC_PRESET]);
    if |samples| >= 2 && c.writeEnable {
      EagerWords(c, s0, Correction(c, samples));
      EagerFields(c, s0, Correction(c, samples));
    }
  }

  lemma MaskTwice(int0: bv32, frac0: bv32)
    ensures CccIntRest(CccIntRest(int0)) == CccIntRest(int0) && Outside(int0, CCC_INT_MASK) == CccIntRest(int0)
    ensures CccIntRest(0) == 0 && CccFracRest(0) == 0
    ensures CccFracRest(CccFracRest(frac0)) == CccFracRest(frac0) && Outside(frac0, CCC_FRAC_MASK) == CccFracRest(frac0)
  {
  }

  /** Writes performed one after the other. */
  function Replay(regs: Registers, writes: seq<(nat, bv32)>): Registers
    requires forall w :: w in writes ==> w.0 < REGISTERS
  {
    if |writes| == 0 then regs
    else
      var before: Registers := Replay(regs, writes[..|writes| - 1]);
      before[writes[|writes| - 1].0 := writes[|writes| - 1].1]
  }

  /** The list of writes has the effect of the step function; for the transceiver every new
      fraction passes through the hold word. */
  lemma WritesHaveEffect(c: Conf, s: State)
    ensures Replay(s.regs, ConfigureWrites(c, s)) == Configure(c, s).regs
    ensures c.source == Xcvr && !s.fracWritten ==>
              var w := ConfigureWrites(c, s);
              && |w| >= 2 && w[|w| - 2] == (XCVR_FRAC_PRESET, XcvrHold(U32(s.fraction)))
              && w[|w| - 1] == (XCVR_FRAC_PRESET, XcvrFrac(U32(s.fraction)))
  {
    hide IntWord, FracWord, XcvrHold, U32, Replay;
    var ints, fracs := IntegerWrites(c, s), FractionWrites(c, s);
    ReplayAppend(s.regs, ints, fracs);
    ReplayShort(s.regs, ints);
    ReplayShort(WithInteger(c, s).regs, fracs);
    FracWordOfXcvr(c, s.preFraction, s.fraction);
  }

  lemma FracWordOfXcvr(c: Conf, pre: bv32, fraction: int)
    ensures c.source == Xcvr ==> FracWord(c, pre, fraction) == XcvrFrac(U32(fraction))
  {
  }

  lemma ReplayShort(regs: Registers, writes: seq<(nat, bv32)>)
    requires forall w :: w in writes ==> w.0 < REGISTERS
    ensures |writes| == 0 ==> Replay(regs, writes) == regs
    ensures |writes| == 1 ==> Replay(regs, writes) == regs[writes[0].0 := writes[0].1]
    ensures |writes| == 2 ==> Replay(regs, writes) == regs[writes[0].0 := writes[0].1][writes[1].0 := writes[1].1]
  {
    if |writes| == 2 {
      assert writes[..1][..0] == [];
    } else if |writes| == 1 {
      assert writes[..0] == [];
    }
  }

  lemma {:induction false} ReplayAppend(regs: Registers, a: seq<(nat, bv32)>, b: seq<(nat, bv32)>)
    requires forall w :: w in a + b ==> w.0 < REGISTERS
    ensures (forall w :: w in a ==> w.0 < REGISTERS) && (forall w :: w in b ==> w.0 < REGISTERS)
    ensures Replay(regs, a + b) == Replay(Replay(regs, a), b)
    decreases |b|
  {
    assert forall w :: w in a || w in b ==> w in a + b;
    if |b| == 0 {
      assert a + b == a;
    } else {
      assert (a + b)[..|a + b| - 1] == a + b[..|b| - 1];
      ReplayAppend(regs, a, b[..|b| - 1]);
    }
  }

  // ----- the code

  class Controller {
    const c: Conf
    const mem: array<bv32>
    var integer: int
    var fraction: int
    var isIntWritten: bool
    var isFracWritten: bool
    var presetPpb0: real
    var preInteger: bv32
    var preFraction: bv32
    var integral: real
    var iterations: int
    ghost var log: seq<(nat, bv32)>  // every register write since startup

    ghost predicate Valid() {
      mem.Length == REGISTERS
    }

    ghost function Abs(): State
      requires Valid()
      reads this, mem
    {
      State(integer, fraction, isIntWritten, isFracWritten, presetPpb0, preInteger, preFraction,
            integral, iterations, mem[..])
    }

    /** Maps the registers and computes the presets for a frequency error of zero. */
    constructor (conf: Conf, registers: array<bv32>)
      requires conf.refClock != 0.0 && registers.Length == REGISTERS
      modifies registers
      ensures Valid() && c == conf && mem == registers && log == []
      ensures Abs() == Init(conf, old(registers[..]))
    {
      hide RefDiv, Outside, Trunc;
      var mult := if conf.source == Ccc then 40.0 else 20.0;
      var base := 125.0 * mult * (RefDiv(conf, registers[..]) as real) / conf.refClock;
      if conf.source == Ccc {
        preInteger := Outside(registers[CCC_INT_PRESET], CCC_INT_MASK);
        preFraction := Outside(registers[CCC_FRAC_PRESET], CCC_FRAC_MASK);
        registers[CCC_FRACN_ENABLE] := 1;
      } else {
        preInteger, preFraction := 0, 0;
      }
      c, mem, presetPpb0 := conf, registers, base;
      integer, fraction := Trunc(base), FractionOf(base, Trunc(base));
      isIntWritten, isFracWritten, integral, iterations, log := false, false, 0.0, 0, [];
    }

    method ICal(error: real) returns (i: real)
      requires Valid()
      modifies this`integral
      ensures Abs() == Integrate(c, old(Abs()), error) && i == integral
      ensures integral == old(integral) + error * c.ki * c.dt
    {
      assert ITerm(c, error) == error * c.ki * c.dt;
      hide ITerm;
      i := integral + ITerm(c, error);
      integral := i;
    }

    method PiController(input: real) returns (output: real)
      requires Valid()
      modifies this`integral
      ensures Abs() == Integrate(c, old(Abs()), c.setPoint - input)
      ensures output == PCal(c, c.setPoint - input) + integral
      ensures output == c.kp * (c.setPoint - input) + integral
    {
      assert PCal(c, c.setPoint - input) == c.kp * (c.setPoint - input);
      hide PCal, ITerm;
      var error := c.setPoint - input;
      var i := ICal(error);
      output := PCal(c, error) + i;
    }

    method CalculatePresets(ppb: real)
      requires Valid()
      modifies this`integer, this`isIntWritten, this`fraction, this`isFracWritten
      ensures Abs() == Presets(old(Abs()), ppb)
      ensures !isFracWritten && (isIntWritten <==> old(isIntWritten) && integer == old(integer))
      ensures ArePresets(presetPpb0, ppb, integer, fraction)
    {
      hide Trunc, ArePresets;
      PresetsInNumbers(Abs(), ppb);
      var total := presetPpb0 * (ppb / FRAC_DIVIDER + 1.0);
      assert total == Total(presetPpb0, ppb);
      var presetInt := Trunc(total);
      if integer != presetInt {
        integer := presetInt;
        isIntWritten := false;
      }
      fraction := Trunc((total - integer as real) * FRAC_SCALE);
      isFracWritten := false;
    }

    method WriteRegister(r: nat, w: bv32)
      requires Valid() && r < REGISTERS
      modifies this`log, mem
      ensures mem[..] == old(mem[..])[r := w] && log == old(log) + [(r, w)]
    {
      mem[r] := w;
      log := log + [(r, w)];
    }

    method WriteInteger()
      requires Valid()
      modifies this`isIntWritten, this`log, mem
      ensures Abs() == WithInteger(c, old(Abs())) && log == old(log) + IntegerWrites(c, old(Abs()))
    {
      hide U32, CccInt;
      if !isIntWritten {
        if c.source == Ccc {
          WriteRegister(CCC_INT_PRESET, CccInt(preInteger, U32(integer)));
        } else {
          WriteRegister(XCVR_INT_PRESET, U32(integer));
        }
        isIntWritten := true;
      }
    }

    method WriteFraction()
      requires Valid()
      modifies this`isFracWritten, this`log, mem
      ensures Abs() == WithFraction(c, old(Abs())) && log == old(log) + FractionWrites(c, old(Abs()))
    {
      hide U32, CccFrac, XcvrHold, XcvrFrac;
      if !isFracWritten {
        if c.source == Ccc {
          WriteRegister(CCC_FRAC_PRESET, CccFrac(preFraction, U32(fraction)));
        } else {
          WriteRegister(XCVR_FRAC_PRESET, XcvrHold(U32(fraction)));
          WriteRegister(XCVR_FRAC_PRESET, XcvrFrac(U32(fraction)));
        }
        isFracWritten := true;
      }
    }

    method ConfigureJapll()
      requires Valid()
      modifies this`isIntWritten, this`isFracWritten, this`log, mem
      ensures Abs() == Configure(c, old(Abs()))
      ensures log == old(log) + ConfigureWrites(c, old(Abs()))
    {
      hide IntWord, FracWord, XcvrHold, U32;
      WriteInteger();
      WriteFraction();
    }

    /** New presets into the registers, if writing is enabled. */
    method ApplyFrequency(freq: real)
      requires Valid()
      modifies this`integer, this`isIntWritten, this`fraction, this`isFracWritten, this`log, mem
      ensures Abs() == Apply(c, old(Abs()), freq)
      ensures !c.writeEnable ==> mem[..] == old(mem[..])
    {
      if c.writeEnable {
        CalculatePresets(freq);
        ConfigureJapll();
      }
    }

    method JapllMain(ppb: real)
      requires Valid()
      modifies this, mem
      ensures Abs() == Sample(c, old(Abs()), ppb)
      ensures iterations == if old(iterations) > 1 && old(iterations) + 1 == 0x7FFF_FFFF then 2 else old(iterations) + 1
      ensures old(iterations) < 1 || !c.writeEnable ==> mem[..] == old(mem[..])
    {
      hide Apply, PCal, ITerm;
      if iterations < INITIAL_PPB_SETTLE_COUNT {
        iterations := iterations + 1;
      } else if iterations == INITIAL_PPB_SETTLE_COUNT {
        ApplyFrequency(ppb);
        iterations := iterations + 1;
      } else {
        var freq := ppb;
        if c.piEnable {
          freq := PiController(ppb);
        }
        ApplyFrequency(freq);
        iterations := iterations + 1;
        if iterations == INT_MAX {
          iterations := INITIAL_PPB_SETTLE_COUNT + 1;
        }
      }
    }

    /** The program: startup, then the read loop over a whole series of samples. */
    static method Discipline(conf: Conf, registers: array<bv32>, samples: seq<real>)
      requires conf.refClock != 0.0 && registers.Length == REGISTERS
      modifies registers
      ensures registers[..] == Run(conf, Init(conf, old(registers[..])), samples).regs
    {
      var ctl := new Controller(conf, registers);
      ctl.RunSamples(samples);
    }

    /** The read loop over a whole series of samples. */
    method RunSamples(samples: seq<real>)
      requires Valid()
      modifies this, mem
      ensures Abs() == Run(c, old(Abs()), samples)
    {
      hide Sample;
      for i := 0 to |samples|
        invariant Abs() == Run(c, old(Abs()), samples[..i])
      {
        assert samples[..i + 1][..i] == samples[..i];
        JapllMain(samples[i]);
      }
      assert samples[..|samples|] == samples;
    }
  }
}
