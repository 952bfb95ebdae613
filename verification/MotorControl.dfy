/** Integer speed conversions of the motor library: the BLDC reference in two truncating steps and
    the stepper's step period, which is computed from a speed that was itself computed from a
    step period. Products are 32-bit, the dividends of the constants are wider. */
module MotorControl {
  import opened Basics

  const TWO_32: int := 0x1_0000_0000
  const BLDC_SPEED_MIN: int := 10
  const BLDC_SPEED_MAX: int := 4000
  const STEPPER_SPEED_MIN: int := 0x20
  const STEPPER_SPEED_MAX: int := 0xFF
  const DEFAULT_SLEW: int := 0x4F
  const FULL_MASK: int := 0x100_0000       // the 24-bit mask keeps the remainder modulo 2^24
  const TICKS: int := 240 * 1000000

  // ----- truncating division

  /** The quotient is the largest number of whole divisors that fit. */
  lemma QuotientFits(n: nat, z: nat, r: nat)
    requires z > 0
    ensures n / z >= r <==> r * z <= n
  {
    var q := n / z;
    assert n == q * z + n % z;
    if r <= q {
      MulMonotone(r, q, z);
    } else {
      MulMonotone(q + 1, r, z);
      assert (q + 1) * z == q * z + z;
    }
  }

  lemma DivAntitone(n: nat, a: nat, b: nat)
    requires 0 < a <= b
    ensures n / b <= n / a
  {
    QuotientFits(n, b, n / b);
    QuotientFits(n, a, n / b);
    MulMonotone(a, b, n / b);
    assert a * (n / b) == (n / b) * a && b * (n / b) == (n / b) * b;
  }

  lemma MulAssociates(a: int, b: int, c: int)
    ensures a * (b * c) == (a * b) * c
  {
  }

  /** Dividing by a product is dividing by one factor and then by the other. */
  lemma DivByProduct(k: nat, x: nat, d: nat)
    requires x > 0 && d > 0
    ensures x * d > 0 && k / (x * d) == (k / d) / x
  {
    MulMonotone(1, x, d);
    SameMultiplesFit(k, x, d, k / (x * d));
    SameMultiplesFit(k, x, d, (k / d) / x);
  }

  lemma SameMultiplesFit(k: nat, x: nat, d: nat, r: nat)
    requires x > 0 && d > 0 && x * d > 0
    ensures k / (x * d) >= r <==> (k / d) / x >= r
  {
    QuotientFits(k, x * d, r);
    QuotientFits(k / d, x, r);
    QuotientFits(k, d, r * x);
    MulAssociates(r, x, d);
  }

  // ----- stepper

  datatype StepperSpecs = StepperSpecs(microsteps: nat, steps: nat)

  /** Quarter steps per revolution. */
  function PerTurn(specs: StepperSpecs): nat {
    specs.microsteps * 4 * specs.steps
  }

  function Product32(x: int, specs: StepperSpecs): int {
    (x * PerTurn(specs)) % TWO_32
  }

  /** The speed that set_speed stores for a step period. */
  function RpmOf(slew: int, specs: StepperSpecs): int
    requires Product32(slew, specs) > 0
  {
    TICKS / Product32(slew, specs)
  }

  function Clamp(slew: int): int {
    if slew < STEPPER_SPEED_MIN then STEPPER_SPEED_MIN
    else if slew > STEPPER_SPEED_MAX then STEPPER_SPEED_MAX else slew
  }

  /** The step period that apply_parameters writes for a stored speed. */
  function SlewOf(rpm: int, specs: StepperSpecs): int
    requires rpm > 0 ==> Product32(rpm, specs) > 0
  {
    if rpm > 0 then Clamp(TICKS / Product32(rpm, specs)) else DEFAULT_SLEW
  }

  /** Step periods in the register's range whose product stays below 2^32. */
  ghost predicate InRange(slew: int, specs: StepperSpecs) {
    && STEPPER_SPEED_MIN <= slew <= STEPPER_SPEED_MAX
    && 0 < PerTurn(specs) && slew * PerTurn(specs) < TWO_32
  }

  /** Turns per minute at a step period of one tick. */
  function TopSpeed(specs: StepperSpecs): nat
    requires PerTurn(specs) > 0
  {
    TICKS / PerTurn(specs)
  }

  /** Specs with at least 255 turns at one tick never wrap. */
  lemma FastSpecsNeverWrap(specs: StepperSpecs)
    requires PerTurn(specs) > 0 && TopSpeed(specs) >= STEPPER_SPEED_MAX
    ensures forall slew :: STEPPER_SPEED_MIN <= slew <= STEPPER_SPEED_MAX ==> InRange(slew, specs)
  {
    forall slew | STEPPER_SPEED_MIN <= slew <= STEPPER_SPEED_MAX
      ensures InRange(slew, specs)
    {
      MulMonotone(slew, STEPPER_SPEED_MAX, PerTurn(specs));
    }
  }

  /** Neither does a period that the top speed divides into at least once. */
  lemma UpToTopSpeedFits(slew: int, specs: StepperSpecs)
    requires STEPPER_SPEED_MIN <= slew <= STEPPER_SPEED_MAX && PerTurn(specs) > 0 && slew <= TopSpeed(specs)
    ensures InRange(slew, specs)
  {
    QuotientFits(TICKS, PerTurn(specs), slew);
  }

  /** A product within 32 bits is not changed by the wrap. */
  lemma ProductFits(x: nat, specs: StepperSpecs)
    requires x * PerTurn(specs) < TWO_32
    ensures Product32(x, specs) == x * PerTurn(specs)
  {
    MulMonotone(0, x, PerTurn(specs));
  }

  /** The stored speed is a plain quotient of the top speed. */
  lemma RpmIsQuotient(slew: int, specs: StepperSpecs)
    requires InRange(slew, specs)
    ensures slew > 0 && PerTurn(specs) > 0 && Product32(slew, specs) > 0
    ensures RpmOf(slew, specs) == TopSpeed(specs) / slew
  {
    hide PerTurn, Product32;
    var d := PerTurn(specs);
    DivByProduct(TICKS, slew, d);
    ProductFits(slew, specs);
  }

  /** Turning back at the stored speed takes no more than all ticks. */
  lemma SpeedFits(slew: nat, d: nat, rpm: nat)
    requires slew > 0 && d > 0 && rpm == (TICKS / d) / slew
    ensures 0 <= rpm * d <= TICKS
  {
    QuotientFits(TICKS / d, slew, rpm);
    MulMonotone(1, slew, rpm);
    assert slew * rpm == rpm * slew;
    QuotientFits(TICKS, d, rpm);
    MulMonotone(0, rpm, d);
  }

  /** So is the period written back, before the clamp. */
  lemma SlewIsQuotient(slew: int, specs: StepperSpecs)
    requires InRange(slew, specs)
    ensures Product32(slew, specs) > 0
    ensures var rpm := RpmOf(slew, specs);
            rpm > 0 ==> Product32(rpm, specs) > 0 && TICKS / Product32(rpm, specs) == TopSpeed(specs) / rpm
  {
    hide PerTurn, Product32, RpmOf, InRange;
    RpmIsQuotient(slew, specs);
    var rpm, d := RpmOf(slew, specs), PerTurn(specs);
    SpeedFits(slew, d, rpm);
    ProductFits(rpm, specs);
    if rpm > 0 {
      DivByProduct(TICKS, rpm, d);
    }
  }

  /** Writing a period back after storing its speed can only raise it, to the largest period in
      range that denotes the same stored speed; storing and writing that one changes nothing. No
      product on the way wraps. */
  lemma WriteBackIsCanonical(slew: int, specs: StepperSpecs)
    requires STEPPER_SPEED_MIN <= slew <= STEPPER_SPEED_MAX && PerTurn(specs) > 0 && slew <= TopSpeed(specs)
    ensures Product32(slew, specs) > 0
    ensures var rpm := RpmOf(slew, specs);
            && rpm > 0 && Product32(rpm, specs) > 0
            && var back := SlewOf(rpm, specs);
               && InRange(back, specs) && slew <= back && Product32(back, specs) > 0
               && RpmOf(back, specs) == rpm
               && SlewOf(RpmOf(back, specs), specs) == back
               && forall y :: InRange(y, specs) && y > back ==> Product32(y, specs) > 0 && RpmOf(y, specs) != rpm
  {
    var n := TopSpeed(specs);
    var rpm := n / slew;
    UpToTopSpeedFits(slew, specs);
    RpmIsQuotient(slew, specs);
    SlewIsQuotient(slew, specs);
    QuotientFits(n, slew, 1);
    QuotientFits(n, slew, rpm);
    QuotientFits(n, rpm, slew);
    assert rpm * slew == slew * rpm;
    var raw := n / rpm;
    var back := SlewOf(rpm, specs);
    BackFits(n, rpm, raw);
    UpToTopSpeedFits(back, specs);
    RpmIsQuotient(back, specs);
    SameSpeed(n, slew, rpm, raw, back);
    forall y | InRange(y, specs) && y > back
      ensures Product32(y, specs) > 0 && RpmOf(y, specs) != rpm
    {
      RpmIsQuotient(y, specs);
      QuotientFits(n, rpm, y);
      QuotientFits(n, y, rpm);
      assert rpm * y == y * rpm;
    }
  }

  lemma BackFits(n: nat, rpm: nat, raw: nat)
    requires rpm > 0 && raw == n / rpm
    ensures raw <= n
  {
    DivAntitone(n, 1, rpm);
  }

  /** Everything between a period and the largest one with the same quotient has that quotient. */
  lemma SameSpeed(n: nat, slew: nat, rpm: nat, raw: nat, back: nat)
    requires 0 < slew <= back <= raw && rpm == n / slew && rpm > 0 && raw == n / rpm
    ensures n / back == rpm
  {
    DivAntitone(n, slew, back);
    QuotientFits(n, rpm, back);
    QuotientFits(n, back, rpm);
    assert rpm * back == back * rpm;
  }

  /** Exactly when the write-back keeps the stored speed: the period is not above the top speed,
      or so far above it that even the default period denotes speed zero. */
  lemma WriteBackKeepsSpeed(slew: int, specs: StepperSpecs)
    requires InRange(slew, specs) && InRange(DEFAULT_SLEW, specs)
    ensures Product32(slew, specs) > 0
    ensures var rpm := RpmOf(slew, specs);
            && (rpm > 0 ==> Product32(rpm, specs) > 0)
            && InRange(SlewOf(rpm, specs), specs) && Product32(SlewOf(rpm, specs), specs) > 0
            && (RpmOf(SlewOf(rpm, specs), specs) == rpm <==>
                slew <= TopSpeed(specs) || TopSpeed(specs) < DEFAULT_SLEW)
  {
    hide RpmOf, SlewOf, Product32, TopSpeed, PerTurn;
    if slew <= TopSpeed(specs) {
      WriteBackIsCanonical(slew, specs);
    } else {
      BeyondTopSpeed(slew, specs);
    }
  }

  lemma ZeroQuotient(n: nat, z: nat)
    requires z > 0
    ensures n / z == 0 <==> n < z
  {
  }

  lemma BeyondTopSpeed(slew: int, specs: StepperSpecs)
    requires InRange(slew, specs) && InRange(DEFAULT_SLEW, specs) && slew > TopSpeed(specs)
    ensures Product32(slew, specs) > 0 && RpmOf(slew, specs) == 0 && SlewOf(0, specs) == DEFAULT_SLEW
    ensures Product32(DEFAULT_SLEW, specs) > 0
    ensures RpmOf(DEFAULT_SLEW, specs) == 0 <==> TopSpeed(specs) < DEFAULT_SLEW
  {
    hide RpmOf, Product32, TopSpeed, PerTurn;
    RpmIsQuotient(slew, specs);
    RpmIsQuotient(DEFAULT_SLEW, specs);
    ZeroQuotient(TopSpeed(specs), slew);
    ZeroQuotient(TopSpeed(specs), DEFAULT_SLEW);
  }

  lemma QuarterSteps(specs: StepperSpecs)
    ensures PerTurn(specs) == specs.microsteps * 4 * specs.steps
  {
  }

  /** Speed and period in numbers: with 32-bit products, 240 million over period or speed times
      quarter steps; the period kept between 32 and 255, and 79 for speed zero. */
  lemma StepperInNumbers(x: nat, specs: StepperSpecs)
    ensures Product32(x, specs) == (x * PerTurn(specs)) % 0x1_0000_0000
    ensures Product32(x, specs) > 0 ==> RpmOf(x, specs) == 240000000 / Product32(x, specs)
    ensures x > 0 && Product32(x, specs) > 0 ==>
              var q := 240000000 / Product32(x, specs);
              SlewOf(x, specs) == if q < 32 then 32 else if q > 255 then 255 else q
    ensures SlewOf(0, specs) == 79
  {
  }

  /** With the default specs, 200 turns per minute would need a period of 23 and get 32. */
  lemma FastSpeedIsClamped()
    ensures Product32(200, StepperSpecs(64, 200)) > 0 && SlewOf(200, StepperSpecs(64, 200)) == 32
  {
  }

  // ----- BLDC

  function SpeedScale(rated: nat): nat
    requires rated > 0
  {
    65536 * 1024 / rated
  }

  /** The reference written for a speed, before the mask. */
  function Reference(speed: nat, scale: nat): nat {
    ((speed * scale) % TWO_32) / 1024
  }

  /** The 24-bit mask never drops anything. */
  lemma MaskLosesNothing(speed: nat, scale: nat)
    ensures Reference(speed, scale) % FULL_MASK == Reference(speed, scale)
  {
  }

  /** Every admissible speed is free of 32-bit wrap-around if and only if the rated speed is at
      least 63. */
  lemma NoWrapIff(rated: nat)
    requires rated > 0
    ensures (forall speed: nat :: BLDC_SPEED_MIN <= speed <= BLDC_SPEED_MAX ==> speed * SpeedScale(rated) < TWO_32)
            <==> rated >= 63
  {
    if rated >= 63 {
      DivAntitone(65536 * 1024, 63, rated);
      forall speed: nat | BLDC_SPEED_MIN <= speed <= BLDC_SPEED_MAX
        ensures speed * SpeedScale(rated) < TWO_32
      {
        MulMonotone(speed, BLDC_SPEED_MAX, SpeedScale(rated));
      }
    } else {
      TopSpeedWraps(rated);
    }
  }

  /** The reference is at most 65536 * speed / rated, and falls short of it by less than
      speed / 1024 + 1: all inequalities multiplied by 1024 * rated. */
  ghost predicate Accurate(speed: nat, rated: nat, ref: int) {
    && ref * rated <= 65536 * speed
    && 1024 * (65536 * speed - ref * rated) < rated * (speed + 1024)
  }

  /** For every positive speed an int can hold: the two truncations together cost less than
      speed / 1024 + 1 if and only if the product does not wrap. Up to the rated speed it never
      does, and the reference is at most 65536. */
  lemma ReferenceAccuracy(speed: nat, rated: nat)
    requires 0 < rated && 0 < speed <= 0x7FFF_FFFF
    ensures Accurate(speed, rated, Reference(speed, SpeedScale(rated))) <==> speed * SpeedScale(rated) < TWO_32
    ensures speed <= rated ==>
              speed * SpeedScale(rated) < TWO_32 && Reference(speed, SpeedScale(rated)) <= 65536
  {
    var scale := SpeedScale(rated);
    var p := speed * scale;
    MulMonotone(0, scale, speed);
    WrapCosts(p);
    ScaleBounds(speed, rated, scale, p, p / 1024);
    if p >= TWO_32 {
      WrapIsSeen(speed, rated, p / 1024, Reference(speed, scale), p / TWO_32);
    } else {
      assert p % TWO_32 == p;
    }
    if speed <= rated {
      NoWrapUpToRated(speed, rated);
    }
  }

  lemma WrapCosts(p: nat)
    ensures (p % TWO_32) / 1024 == p / 1024 - 0x40_0000 * (p / TWO_32)
  {
  }

  /** Each wrap costs far more than the accuracy allows. */
  lemma WrapIsSeen(speed: nat, rated: nat, full: nat, ref: nat, wraps: nat)
    requires 0 < rated && speed <= 0x7FFF_FFFF && wraps > 0 && ref == full - 0x40_0000 * wraps
    requires full * rated <= 65536 * speed
    ensures !Accurate(speed, rated, ref)
  {
    MulMonotone(0x40_0000, 0x40_0000 * wraps, rated);
    MulMonotone(speed + 1024, 0x1_0000_0000, rated);
    Distributes(rated, full, 0x40_0000 * wraps);
    assert rated * (speed + 1024) == (speed + 1024) * rated;
  }

  /** All speeds that set_speed accepts are converted accurately if and only if the rated speed is
      at least 63. */
  lemma AccurateForAllSpeeds(rated: nat)
    requires rated > 0
    ensures (forall speed: nat :: BLDC_SPEED_MIN <= speed <= BLDC_SPEED_MAX ==>
               Accurate(speed, rated, Reference(speed, SpeedScale(rated))))
            <==> rated >= 63
  {
    hide Accurate, SpeedScale, Reference;
    NoWrapIff(rated);
    forall speed: nat | BLDC_SPEED_MIN <= speed <= BLDC_SPEED_MAX
      ensures Accurate(speed, rated, Reference(speed, SpeedScale(rated))) <==> speed * SpeedScale(rated) < TWO_32
    {
      ReferenceAccuracy(speed, rated);
    }
    if rated < 63 {
      TopSpeedWraps(rated);
      assert !Accurate(BLDC_SPEED_MAX, rated, Reference(BLDC_SPEED_MAX, SpeedScale(rated)));
    }
  }

  lemma TopSpeedWraps(rated: nat)
    requires 0 < rated < 63
    ensures BLDC_SPEED_MAX * SpeedScale(rated) >= TWO_32
  {
    DivAntitone(65536 * 1024, rated, 62);
  }

  lemma NoWrapUpToRated(speed: nat, rated: nat)
    requires 0 < speed <= rated
    ensures speed * SpeedScale(rated) <= 65536 * 1024
    ensures Reference(speed, SpeedScale(rated)) == speed * SpeedScale(rated) / 1024
  {
    var scale := SpeedScale(rated);
    QuotientFits(65536 * 1024, rated, scale);
    MulMonotone(speed, rated, scale);
    assert rated * scale == scale * rated;
    assert 0 <= speed * scale <= 65536 * 1024;
  }

  lemma ScaleBounds(speed: nat, rated: nat, scale: nat, p: nat, ref: nat)
    requires 0 < speed && 0 < rated && scale == 65536 * 1024 / rated && p == speed * scale && ref == p / 1024
    ensures ref * rated <= 65536 * speed
    ensures 1024 * (65536 * speed - ref * rated) < rated * (speed + 1024)
  {
    var rest, cut := 65536 * 1024 % rated, p % 1024;
    FirstCut(speed, rated, scale);
    SecondCut(p, rated);
    Combine(speed, rated, ref * rated, speed * rated, speed * rest, cut * rated, p * rated);
    assert rated * (speed + 1024) == speed * rated + 1024 * rated;
  }

  /** What the division of the scale costs. */
  lemma FirstCut(speed: nat, rated: nat, scale: nat)
    requires 0 < speed && 0 < rated && scale == 65536 * 1024 / rated
    ensures var rest := 65536 * 1024 % rated;
            && (speed * scale) * rated == 65536 * 1024 * speed - speed * rest
            && 0 <= speed * rest <= speed * rated - speed
  {
    var rest := 65536 * 1024 % rated;
    Dropped(65536 * 1024, rated);
    MulAssociates(speed, scale, rated);
    Distributes(speed, 65536 * 1024, rest);
    MulMonotone(0, rest, speed);
    MulMonotone(rest + 1, rated, speed);
  }

  /** What the division of the reference costs. */
  lemma SecondCut(p: nat, rated: nat)
    ensures 1024 * ((p / 1024) * rated) == p * rated - (p % 1024) * rated
    ensures 0 <= (p % 1024) * rated <= 1023 * rated
  {
    MulAssociates(1024, p / 1024, rated);
    Distributes(rated, p, p % 1024);
    MulMonotone(0, p % 1024, rated);
    MulMonotone(p % 1024, 1023, rated);
  }

  lemma Combine(s: int, r: int, a: int, sr: int, b: int, c: int, p: int)
    requires 0 < s && 0 < r && 1024 * a == p - c && p == 65536 * 1024 * s - b
    requires 0 <= b <= sr - s && 0 <= c <= 1023 * r
    ensures a <= 65536 * s && 1024 * (65536 * s - a) < sr + 1024 * r
  {
  }

  lemma Dropped(n: nat, d: nat)
    requires d > 0
    ensures (n / d) * d == n - n % d && 0 <= n % d < d
  {
  }

  lemma Distributes(a: int, b: int, c: int)
    ensures a * (b - c) == a * b - a * c && (b - c) * a == b * a - c * a
  {
  }

  /** Without a wrap the reference never decreases with the speed. */
  lemma ReferenceMonotone(slow: nat, fast: nat, rated: nat)
    requires 0 < rated && slow <= fast && fast * SpeedScale(rated) < TWO_32
    ensures Reference(slow, SpeedScale(rated)) <= Reference(fast, SpeedScale(rated))
  {
    hide SpeedScale;
    var scale := SpeedScale(rated);
    MulMonotone(slow, fast, scale);
    MulMonotone(0, slow, scale);
    DivMonotone(slow * scale, fast * scale);
  }

  ghost predicate InOrder(slow: nat, fast: nat, rated: nat)
    requires rated > 0
  {
    Reference(slow, SpeedScale(rated)) <= Reference(fast, SpeedScale(rated))
  }

  /** Over the speeds that set_speed accepts, faster never means a lower reference if and only if
      the rated speed is at least 63. */
  lemma MonotoneForAllSpeeds(rated: nat)
    requires rated > 0
    ensures (forall slow: nat, fast: nat :: BLDC_SPEED_MIN <= slow <= fast <= BLDC_SPEED_MAX ==>
               InOrder(slow, fast, rated))
            <==> rated >= 63
  {
    if rated >= 63 {
      forall slow: nat, fast: nat | BLDC_SPEED_MIN <= slow <= fast <= BLDC_SPEED_MAX
        ensures InOrder(slow, fast, rated)
      {
        NoWrapIff(rated);
        ReferenceMonotone(slow, fast, rated);
      }
    } else {
      var slow := FirstWrap(rated);
      assert !InOrder(slow, slow + 1, rated);
    }
  }

  /** The last speed before the product wraps; one more and the reference falls. */
  lemma FirstWrap(rated: nat) returns (slow: nat)
    requires 0 < rated < 63
    ensures BLDC_SPEED_MIN <= slow < BLDC_SPEED_MAX
    ensures Reference(slow, SpeedScale(rated)) > Reference(slow + 1, SpeedScale(rated))
  {
    hide SpeedScale;
    var scale := SpeedScale(rated);
    ScaleRange(rated);
    TopSpeedWraps(rated);
    slow := (TWO_32 - 1) / scale;
    QuotientFits(TWO_32 - 1, scale, slow);
    QuotientFits(TWO_32 - 1, scale, slow + 1);
    QuotientFits(TWO_32 - 1, scale, BLDC_SPEED_MAX);
    QuotientFits(TWO_32 - 1, scale, BLDC_SPEED_MIN);
    assert (slow + 1) * scale == slow * scale + scale;
    FallsAtWrap(slow * scale, scale);
  }

  lemma ScaleRange(rated: nat)
    requires 0 < rated < 63
    ensures 1024 * 1024 < SpeedScale(rated) <= 65536 * 1024
  {
    DivAntitone(65536 * 1024, rated, 62);
    DivAntitone(65536 * 1024, 1, rated);
  }

  lemma FallsAtWrap(p: nat, scale: nat)
    requires p < TWO_32 <= p + scale && scale <= 65536 * 1024
    ensures (p % TWO_32) / 1024 > ((p + scale) % TWO_32) / 1024
  {
  }

  lemma DivMonotone(a: nat, b: nat)
    requires a <= b
    ensures a / 1024 <= b / 1024
  {
  }

  // ----- the code

  datatype MotorType = Bldc | Stepper

  class Motor {
    const kind: MotorType
    var devicesValid: bool
    var ratedRpm: nat          // BLDC specs
    var bldcSpeedScale: nat
    var stepperSpecs: StepperSpecs
    var speedRpm: int          // stepper params
    var slewCnt: int           // the SLEW_CNT register
    var rateLimitRef: int      // the BLDC reference register

    constructor (kind: MotorType, devicesValid: bool)
      ensures this.kind == kind && this.devicesValid == devicesValid
      ensures ratedRpm == 4000 && bldcSpeedScale == 0 && stepperSpecs == StepperSpecs(64, 200) && speedRpm == 100
    {
      this.kind, this.devicesValid := kind, devicesValid;
      ratedRpm, bldcSpeedScale, stepperSpecs, speedRpm := 4000, 0, StepperSpecs(64, 200), 100;
      slewCnt, rateLimitRef := 0, 0;
    }

    method CalculateBldcConstants()
      requires ratedRpm > 0
      modifies this`bldcSpeedScale
      ensures bldcSpeedScale == SpeedScale(ratedRpm) == 67108864 / ratedRpm
    {
      bldcSpeedScale := (65536 * 1024) / ratedRpm;
    }

    /** An out-of-range speed is refused without any change. A stepper's speed is given as its
        step period, and the stored speed follows if the specs are set. */
    method SetSpeed(speed: int) returns (ret: int)
      requires kind == Stepper && STEPPER_SPEED_MIN <= speed <= STEPPER_SPEED_MAX && PerTurn(stepperSpecs) > 0
               ==> Product32(speed, stepperSpecs) > 0
      modifies this`rateLimitRef, this`slewCnt, this`speedRpm
      ensures ret == (if devicesValid && Admissible(kind, speed) then 0 else -1)
      ensures ret == 0 <==> devicesValid && if kind == Bldc then 10 <= speed <= 4000 else 32 <= speed <= 255
      ensures ret != 0 ==> rateLimitRef == old(rateLimitRef) && slewCnt == old(slewCnt) && speedRpm == old(speedRpm)
      ensures ret == 0 && kind == Bldc ==>
                && rateLimitRef == Reference(speed, bldcSpeedScale) == ((speed * bldcSpeedScale) % 0x1_0000_0000) / 1024
                && slewCnt == old(slewCnt) && speedRpm == old(speedRpm)
      ensures ret == 0 && kind == Stepper ==>
                && slewCnt == speed && rateLimitRef == old(rateLimitRef)
                && speedRpm == (if PerTurn(stepperSpecs) > 0 then RpmOf(speed, stepperSpecs) else old(speedRpm))
    {
      if !devicesValid {
        return -1;
      }
      if kind == Bldc {
        if speed < BLDC_SPEED_MIN || speed > BLDC_SPEED_MAX {
          return -1;
        }
        var scaled := ((speed * bldcSpeedScale) % TWO_32) / 1024;
        MaskLosesNothing(speed, bldcSpeedScale);
        rateLimitRef := scaled % FULL_MASK;
        return 0;
      } else {
        if speed < STEPPER_SPEED_MIN || speed > STEPPER_SPEED_MAX {
          return -1;
        }
        slewCnt := speed % FULL_MASK;
        PerTurnPositive(stepperSpecs);
        if speed > 0 && stepperSpecs.microsteps > 0 && stepperSpecs.steps > 0 {
          var divisor := (speed * (stepperSpecs.microsteps * 4 * stepperSpecs.steps)) % TWO_32;
          speedRpm := TICKS / divisor;
        }
        return 0;
      }
    }

    /** The SLEW_CNT write of write_stepper_registers. */
    method WriteStepperSlew()
      requires speedRpm > 0 ==> Product32(speedRpm, stepperSpecs) > 0
      modifies this`slewCnt
      ensures slewCnt == SlewOf(speedRpm, stepperSpecs) && (speedRpm <= 0 ==> slewCnt == 79)
    {
      var slew := DEFAULT_SLEW;
      if speedRpm > 0 {
        slew := TICKS / ((speedRpm * (stepperSpecs.microsteps * 4 * stepperSpecs.steps)) % TWO_32);
        if slew < 0x20 {
          slew := 0x20;
        }
        if slew > 0xFF {
          slew := 0xFF;
        }
      }
      slewCnt := slew;
    }

    /** The speed part of apply_parameters; without devices nothing happens. */
    method ApplyParameters()
      requires kind == Bldc ==> ratedRpm > 0
      requires kind == Stepper && speedRpm > 0 ==> Product32(speedRpm, stepperSpecs) > 0
      modifies this`bldcSpeedScale, this`slewCnt
      ensures bldcSpeedScale ==
              if devicesValid && kind == Bldc then SpeedScale(ratedRpm) else old(bldcSpeedScale)
      ensures slewCnt == if devicesValid && kind == Stepper then SlewOf(speedRpm, stepperSpecs) else old(slewCnt)
    {
      if !devicesValid {
        return;
      }
      if kind == Bldc {
        CalculateBldcConstants();
      } else {
        WriteStepperSlew();
      }
    }

    /** set_speed, then apply_parameters: the register moves to the canonical period of the same
        speed, and doing both again with the value found there changes nothing more. */
    method SetApplyAgain(slew: int) returns (first: int, second: int)
      requires devicesValid && kind == Stepper && STEPPER_SPEED_MIN <= slew <= STEPPER_SPEED_MAX
      requires PerTurn(stepperSpecs) > 0 && slew <= TopSpeed(stepperSpecs)
      modifies this`rateLimitRef, this`slewCnt, this`speedRpm, this`bldcSpeedScale
      ensures slew <= first <= STEPPER_SPEED_MAX && second == first == slewCnt
      ensures speedRpm == TopSpeed(stepperSpecs) / slew == TopSpeed(stepperSpecs) / first
      ensures rateLimitRef == old(rateLimitRef) && bldcSpeedScale == old(bldcSpeedScale)
    {
      WriteBackIsCanonical(slew, stepperSpecs);
      UpToTopSpeedFits(slew, stepperSpecs);
      RpmIsQuotient(slew, stepperSpecs);
      var ok := SetSpeed(slew);
      ApplyParameters();
      first := slewCnt;
      RpmIsQuotient(first, stepperSpecs);
      ok := SetSpeed(slewCnt);
      ApplyParameters();
      second := slewCnt;
    }
  }

  predicate Admissible(kind: MotorType, speed: int) {
    match kind
    case Bldc => BLDC_SPEED_MIN <= speed <= BLDC_SPEED_MAX
    case Stepper => STEPPER_SPEED_MIN <= speed <= STEPPER_SPEED_MAX
  }

  lemma PerTurnPositive(specs: StepperSpecs)
    ensures PerTurn(specs) > 0 <==> specs.microsteps > 0 && specs.steps > 0
  {
  }
}
