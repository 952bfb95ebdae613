/** The line rasteriser of the games: one shared error term for all octants.
    The specification is the ideal line, rounded on its shorter axis. */
module LineDrawing {
  import opened Basics

  type Color = bv32

  datatype Point = Point(x: int, y: int)

  function Abs(n: int): nat {
    if n < 0 then -n else n
  }

  function Max(a: nat, b: nat): nat {
    if a < b then b else a
  }

  /** n pixel steps on one axis; an axis whose ends agree would move down. */
  function Toward(from: int, to: int, n: int): int {
    if from < to then from + n else from - n
  }

  // ----- the ideal line

  /** k * minor / major rounded to the nearest integer, an exact half going down. */
  function Rounded(major: nat, minor: nat, k: nat): int {
    if major == 0 then 0 else (2 * (k * minor) + major - 1) / (2 * major)
  }

  /** m is within half a step of k * minor / major, the upper half excluded. */
  ghost predicate Nearest(major: nat, minor: nat, k: nat, m: int) {
    -(major as int) <= 2 * (m * major - k * minor) < major
  }

  /** How many of the first k steps move along x, and how many along y. */
  function XSteps(dx: nat, dy: nat, k: nat): int {
    if dx >= dy then k else Rounded(dy, dx, k)
  }

  function YSteps(dx: nat, dy: nat, k: nat): int {
    if dx >= dy then Rounded(dx, dy, k) else k
  }

  /** The pixels of the line in drawing order, endpoints included. */
  function Line(x0: int, y0: int, x1: int, y1: int): seq<Point> {
    var dx, dy := Abs(x1 - x0), Abs(y1 - y0);
    seq(Max(dx, dy) + 1, k requires 0 <= k =>
      Point(Toward(x0, x1, XSteps(dx, dy, k)), Toward(y0, y1, YSteps(dx, dy, k))))
  }

  lemma RoundedIsNearest(major: nat, minor: nat, k: nat)
    requires 0 < major
    ensures Nearest(major, minor, k, Rounded(major, minor, k))
  {
  }

  lemma NearestIsUnique(major: nat, minor: nat, k: nat, m: int, m': int)
    requires Nearest(major, minor, k, m) && Nearest(major, minor, k, m')
    ensures m == m'
  {
    assert (m + 1) * major == m * major + major && (m' + 1) * major == m' * major + major;
    if m < m' {
      MulMonotone(m + 1, m', major);
    } else if m' < m {
      MulMonotone(m' + 1, m, major);
    }
  }

  /** One step of the loop advances the shorter axis exactly when rounding does. */
  lemma NearestStep(major: nat, minor: nat, k: nat, m: int)
    requires minor <= major && 0 < major
    requires Nearest(major, minor, k, m)
    ensures var rise := 2 * (k * minor - m * major) + 2 * minor > major;
            Nearest(major, minor, k + 1, if rise then m + 1 else m)
  {
    assert (k + 1) * minor == k * minor + minor;
    assert (m + 1) * major == m * major + major;
  }

  /** Endpoints are exact: no step taken, none moved; all major steps taken, all minor steps moved. */
  lemma NearestEnds(major: nat, minor: nat)
    requires 0 < major
    ensures Rounded(major, minor, 0) == 0 && Rounded(major, minor, major) == minor
  {
    assert 0 * minor == 0 && 0 * major == 0;
    RoundedIsNearest(major, minor, 0);
    NearestIsUnique(major, minor, 0, 0, Rounded(major, minor, 0));
    assert minor * major == major * minor;
    RoundedIsNearest(major, minor, major);
    NearestIsUnique(major, minor, major, minor, Rounded(major, minor, major));
  }

  lemma RoundedStep(major: nat, minor: nat, k: nat)
    requires minor <= major && 0 < major
    ensures var m := Rounded(major, minor, k);
            Rounded(major, minor, k + 1) ==
            if 2 * (k * minor - m * major) + 2 * minor > major then m + 1 else m
  {
    var m := Rounded(major, minor, k);
    RoundedIsNearest(major, minor, k);
    NearestStep(major, minor, k, m);
    RoundedIsNearest(major, minor, k + 1);
    var m' := if 2 * (k * minor - m * major) + 2 * minor > major then m + 1 else m;
    NearestIsUnique(major, minor, k + 1, m', Rounded(major, minor, k + 1));
  }

  // ----- the error term

  /** The value the shared error term has after k steps. */
  function ErrorTerm(dx: nat, dy: nat, k: nat): int {
    (YSteps(dx, dy, k) + 1) * dx - (XSteps(dx, dy, k) + 1) * dy
  }

  /** Expanded form: the error term is the signed distance from the ideal line, one step ahead. */
  lemma ErrorTermExpanded(dx: nat, dy: nat, k: nat)
    ensures ErrorTerm(dx, dy, k) == (YSteps(dx, dy, k) * dx - XSteps(dx, dy, k) * dy) + dx - dy
  {
  }

  /** The two tests of the loop, on the doubled error term, choose exactly the moves of the
      rounded ideal line; the longer axis moves at every step. */
  lemma ErrorTermDrives(dx: nat, dy: nat, k: nat)
    requires k < Max(dx, dy)
    ensures var e2 := 2 * ErrorTerm(dx, dy, k);
            && XSteps(dx, dy, k + 1) == XSteps(dx, dy, k) + (if e2 > -(dy as int) then 1 else 0)
            && YSteps(dx, dy, k + 1) == YSteps(dx, dy, k) + (if e2 < dx then 1 else 0)
            && (dx >= dy ==> e2 > -(dy as int))
            && (dx <= dy ==> e2 < dx)
  {
    ErrorTermExpanded(dx, dy, k);
    if dx > dy {
      RoundedIsNearest(dx, dy, k);
      RoundedStep(dx, dy, k);
    } else if dx == dy {
      DiagonalIsExact(dx, k);
      DiagonalIsExact(dx, k + 1);
    } else {
      RoundedIsNearest(dy, dx, k);
      RoundedStep(dy, dx, k);
    }
  }

  lemma DiagonalIsExact(d: nat, k: nat)
    requires 0 < d
    ensures Rounded(d, d, k) == k
  {
    RoundedIsNearest(d, d, k);
    NearestIsUnique(d, d, k, k, Rounded(d, d, k));
  }

  /** The doubled error term stays within three line lengths, so a line with both
      extents below 2^29 never leaves 32-bit range. */
  lemma ErrorTermBounded(dx: nat, dy: nat, k: nat)
    requires k <= Max(dx, dy)
    ensures -3 * Max(dx, dy) <= 2 * ErrorTerm(dx, dy, k) <= 3 * Max(dx, dy)
  {
    ErrorTermExpanded(dx, dy, k);
    if dx >= dy && dx > 0 {
      RoundedIsNearest(dx, dy, k);
    } else if dx < dy {
      RoundedIsNearest(dy, dx, k);
    }
  }

  // ----- what the line looks like

  /** The line starts and ends exactly at its endpoints and has max(dx, dy) + 1 points. */
  lemma LineEndpoints(x0: int, y0: int, x1: int, y1: int)
    ensures var line := Line(x0, y0, x1, y1);
            && |line| == Max(Abs(x1 - x0), Abs(y1 - y0)) + 1
            && line[0] == Point(x0, y0)
            && line[|line| - 1] == Point(x1, y1)
  {
    var dx, dy := Abs(x1 - x0), Abs(y1 - y0);
    if dx >= dy && dx > 0 {
      NearestEnds(dx, dy);
    } else if dx < dy {
      NearestEnds(dy, dx);
    }
  }

  /** Every point is within half a pixel of the ideal line, measured along the shorter axis,
      and the endpoint order decides the exact halves. */
  lemma LineWithinHalfPixel(x0: int, y0: int, x1: int, y1: int, k: nat)
    requires k <= Max(Abs(x1 - x0), Abs(y1 - y0))
    ensures var dx, dy := Abs(x1 - x0), Abs(y1 - y0);
            var p := Line(x0, y0, x1, y1)[k];
            var i, j := XSteps(dx, dy, k), YSteps(dx, dy, k);
            && p == Point(Toward(x0, x1, i), Toward(y0, y1, j))
            && 0 <= i <= dx && 0 <= j <= dy && Max(i, j) == k
            && 2 * Abs(i * dy - j * dx) <= Max(dx, dy)
  {
    var dx, dy := Abs(x1 - x0), Abs(y1 - y0);
    if dx >= dy && dx > 0 {
      RoundedRange(dx, dy, k);
      RoundedIsNearest(dx, dy, k);
    } else if dx < dy {
      RoundedRange(dy, dx, k);
      RoundedIsNearest(dy, dx, k);
    }
  }

  /** The rounded value never passes either end of its range, nor the step count. */
  lemma RoundedRange(major: nat, minor: nat, k: nat)
    requires minor <= major && 0 < major
    ensures 0 <= Rounded(major, minor, k) <= k
    ensures k <= major ==> Rounded(major, minor, k) <= minor
  {
    var m := Rounded(major, minor, k);
    RoundedIsNearest(major, minor, k);
    NearestBounds(major, minor, k, m);
    if k <= major {
      NearestBelow(major, minor, k, m);
    }
  }

  lemma NearestBounds(major: nat, minor: nat, k: nat, m: int)
    requires minor <= major && 0 < major && Nearest(major, minor, k, m)
    ensures 0 <= m <= k
  {
    if m < 0 {
      MulMonotone(m, -1, major);
      MulMonotone(0, k, minor);
    } else if m > k {
      MulMonotone(k + 1, m, major);
      assert (k + 1) * major == k * major + major;
      MulMonotone(minor, major, k);
    }
  }

  lemma NearestBelow(major: nat, minor: nat, k: nat, m: int)
    requires k <= major && 0 < major && Nearest(major, minor, k, m)
    ensures m <= minor
  {
    if m > minor {
      MulMonotone(minor + 1, m, major);
      assert (minor + 1) * major == minor * major + major;
      MulMonotone(k, major, minor);
    }
  }

  /** Consecutive points differ by one pixel step, always along the longer axis,
      and never back. */
  lemma LineIsConnected(x0: int, y0: int, x1: int, y1: int, k: nat)
    requires k < Max(Abs(x1 - x0), Abs(y1 - y0))
    ensures var line := Line(x0, y0, x1, y1);
            var p, q := line[k], line[k + 1];
            && (q.x == p.x || q.x == Toward(x0, x1, 1) - x0 + p.x)
            && (q.y == p.y || q.y == Toward(y0, y1, 1) - y0 + p.y)
            && (Abs(x1 - x0) >= Abs(y1 - y0) ==> q.x != p.x)
            && (Abs(x1 - x0) <= Abs(y1 - y0) ==> q.y != p.y)
  {
    hide ErrorTerm, XSteps, YSteps;
    ErrorTermDrives(Abs(x1 - x0), Abs(y1 - y0), k);
  }

  // ----- dependence on the drawing direction

  /** Some step of the line passes exactly half-way between two pixels. */
  ghost predicate HasTie(major: nat, minor: nat) {
    exists k: nat :: k <= major && IsTie(major, minor, k)
  }

  ghost predicate IsTie(major: nat, minor: nat, k: nat) {
    2 * (Rounded(major, minor, k) * major - k * minor) == -(major as int)
  }

  /** Seen from the other end, step k rounds to the mirrored pixel unless it is a tie. */
  lemma RoundedMirror(major: nat, minor: nat, k: nat)
    requires minor <= major && 0 < major && k <= major
    ensures Rounded(major, minor, major - k) == minor - Rounded(major, minor, k)
            <==> !IsTie(major, minor, k)
  {
    var m := Rounded(major, minor, k);
    RoundedIsNearest(major, minor, k);
    RoundedIsNearest(major, minor, major - k);
    assert (major - k) * minor == major * minor - k * minor;
    assert (minor - m) * major == minor * major - m * major;
    if !IsTie(major, minor, k) {
      NearestIsUnique(major, minor, major - k, minor - m, Rounded(major, minor, major - k));
    }
  }

  lemma PointMirror(x0: int, y0: int, x1: int, y1: int, k: nat)
    requires 0 < k + Max(Abs(x1 - x0), Abs(y1 - y0)) && k <= Max(Abs(x1 - x0), Abs(y1 - y0))
    ensures var dx, dy := Abs(x1 - x0), Abs(y1 - y0);
            Line(x1, y1, x0, y0)[Max(dx, dy) - k] == Line(x0, y0, x1, y1)[k]
            <==> !IsTie(Max(dx, dy), Min(dx, dy), k)
  {
    var dx, dy := Abs(x1 - x0), Abs(y1 - y0);
    hide IsTie, Rounded;
    var major, minor := Max(dx, dy), Min(dx, dy);
    RoundedMirror(major, minor, k);
    if minor == 0 {
      RoundedRange(major, minor, k);
      RoundedRange(major, minor, major - k);
      assert k * minor == 0 && Rounded(major, minor, k) * major == 0;
    }
  }

  function Gcd(a: nat, b: nat): nat
    decreases b
  {
    if b == 0 then a else Gcd(b, a % b)
  }

  ghost predicate Divides(d: nat, n: nat) {
    exists k: nat :: n == k * d
  }

  lemma {:induction false} GcdDivides(a: nat, b: nat)
    requires a > 0 || b > 0
    ensures Gcd(a, b) > 0 && Divides(Gcd(a, b), a) && Divides(Gcd(a, b), b)
    decreases b
  {
    hide Divides;
    if b == 0 {
      DividesSelf(a);
    } else {
      GcdDivides(b, a % b);
      DividesDividend(a, b, Gcd(a, b));
    }
  }

  lemma DividesSelf(g: nat)
    ensures Divides(g, g) && Divides(g, 0)
  {
    assert g == 1 * g && 0 == 0 * g;
  }

  lemma DividesDividend(a: nat, b: nat, g: nat)
    requires b > 0 && Divides(g, b) && Divides(g, a % b)
    ensures Divides(g, a)
  {
    hide Divides;
    SumDivides(a / b, b, a % b, g);
    assert a == (a / b) * b + a % b;
  }

  lemma SumDivides(q: nat, b: nat, r: nat, g: nat)
    requires Divides(g, b) && Divides(g, r)
    ensures Divides(g, q * b + r)
  {
    var j: nat :| b == j * g;
    var k: nat :| r == k * g;
    assert q * b + r == (q * j + k) * g by {
      assert q * (j * g) == (q * j) * g;
      assert (q * j + k) * g == (q * j) * g + k * g;
    }
  }

  /** Every common divisor divides the greatest one. */
  lemma {:induction false} GcdGreatest(a: nat, b: nat, d: nat)
    requires d > 0 && Divides(d, a) && Divides(d, b)
    ensures Divides(d, Gcd(a, b))
    decreases b
  {
    if b > 0 {
      var j: nat :| a == j * d;
      var k: nat :| b == k * d;
      RemainderDivides(j, k, d);
      GcdGreatest(b, a % b, d);
    }
  }

  lemma RemainderDivides(j: nat, k: nat, d: nat)
    requires d > 0 && k * d > 0
    ensures (j * d) % (k * d) == (j % k) * d && Divides(d, (j * d) % (k * d))
  {
    var q, r := j / k, j % k;
    assert j * d == q * (k * d) + r * d by {
      assert j == q * k + r;
      assert (q * k) * d == q * (k * d);
    }
    MulMonotone(r + 1, k, d);
    assert (r + 1) * d == r * d + d;
    RemainderIs(j * d, k * d, q, r * d);
  }

  lemma RemainderIs(n: nat, d: nat, q: nat, r: nat)
    requires n == q * d + r && r < d
    ensures n % d == r && n / d == q
  {
    var q', r' := n / d, n % d;
    assert n == q' * d + r';
    assert (q + 1) * d == q * d + d && (q' + 1) * d == q' * d + d;
    if q < q' {
      MulMonotone(q + 1, q', d);
    } else if q' < q {
      MulMonotone(q' + 1, q, d);
    }
  }

  /** A line has an exact half if and only if its longer extent, in lowest terms, is even. */
  lemma TieIffEven(major: nat, minor: nat)
    requires minor <= major && 0 < major
    ensures Gcd(major, minor) > 0
    ensures HasTie(major, minor) <==> (major / Gcd(major, minor)) % 2 == 0
  {
    var g := Gcd(major, minor);
    GcdDivides(major, minor);
    var a: nat :| major == a * g;
    var b: nat :| minor == b * g;
    RemainderIs(major, g, a, 0);
    NotBothEven(major, minor, a, b, g);
    if a % 2 == 0 {
      HalfWay(major, minor, a / 2, b / 2, g);
    } else if HasTie(major, minor) {
      var k: nat :| k <= major && IsTie(major, minor, k);
      NoHalfWay(k, Rounded(major, minor, k), a, b, g);
    }
  }

  lemma NotBothEven(major: nat, minor: nat, a: nat, b: nat, g: nat)
    requires g > 0 && g == Gcd(major, minor) && major == a * g && minor == b * g
    ensures a % 2 == 1 || b % 2 == 1
  {
    hide Gcd;
    if a % 2 == 0 && b % 2 == 0 {
      assert a * g == (a / 2) * (2 * g) && b * g == (b / 2) * (2 * g);
      assert Divides(2 * g, major) && Divides(2 * g, minor);
      GcdGreatest(major, minor, 2 * g);
      var k: nat :| g == k * (2 * g);
      if k > 0 {
        MulMonotone(1, k, 2 * g);
      }
    }
  }

  lemma HalfWay(major: nat, minor: nat, q: nat, p: nat, g: nat)
    requires 0 < major == (2 * q) * g && minor == (2 * p + 1) * g
    ensures HasTie(major, minor)
  {
    assert p * major == 2 * (p * q * g) && q * minor == 2 * (p * q * g) + q * g && major == 2 * (q * g);
    RoundedIsNearest(major, minor, q);
    NearestIsUnique(major, minor, q, p, Rounded(major, minor, q));
    MulMonotone(1, g, q);
    assert q * g == g * q;
    assert IsTie(major, minor, q);
  }

  /** An odd number of halves is no whole number of steps. */
  lemma NoHalfWay(k: nat, m: int, a: nat, b: nat, g: nat)
    requires g > 0 && a % 2 == 1
    ensures 2 * (m * (a * g) - k * (b * g)) != -(a * g)
  {
    var x := 2 * (m * a) - 2 * (k * b) + a;
    assert x == 2 * (m * a - k * b + a / 2) + 1;
    assert m * (a * g) == (m * a) * g && k * (b * g) == (k * b) * g;
    assert x * g == 2 * ((m * a) * g) - 2 * ((k * b) * g) + a * g;
    if x > 0 {
      MulMonotone(1, x, g);
    } else {
      MulMonotone(x, -1, g);
    }
  }

  /** Drawing from the other end visits the same pixels in the opposite order if and only if the
      longer extent, divided by the greatest common divisor of both, is odd. */
  lemma DrawingDirection(x0: int, y0: int, x1: int, y1: int)
    requires x0 != x1 || y0 != y1
    ensures var dx, dy := Abs(x1 - x0), Abs(y1 - y0);
            var there, back := Line(x0, y0, x1, y1), Line(x1, y1, x0, y0);
            && |there| == |back| && Gcd(Max(dx, dy), Min(dx, dy)) > 0
            && (Reversed(there, back) <==> (Max(dx, dy) / Gcd(Max(dx, dy), Min(dx, dy))) % 2 == 1)
  {
    var dx, dy := Abs(x1 - x0), Abs(y1 - y0);
    hide Line, Gcd, HasTie, Reversed;
    ReversedIffNoTie(x0, y0, x1, y1);
    TieIffEven(Max(dx, dy), Min(dx, dy));
  }

  /** A line that is not the same both ways. */
  lemma DirectionMatters()
    ensures Line(0, 0, 2, 1) == [Point(0, 0), Point(1, 0), Point(2, 1)]
    ensures Line(2, 1, 0, 0) == [Point(2, 1), Point(1, 1), Point(0, 0)]
  {
    assert Rounded(2, 1, 1) == 0;
  }

  lemma ReversedIffNoTie(x0: int, y0: int, x1: int, y1: int)
    requires x0 != x1 || y0 != y1
    ensures var dx, dy := Abs(x1 - x0), Abs(y1 - y0);
            var there, back := Line(x0, y0, x1, y1), Line(x1, y1, x0, y0);
            && |there| == |back|
            && (Reversed(there, back) <==> !HasTie(Max(dx, dy), Min(dx, dy)))
  {
    var dx, dy := Abs(x1 - x0), Abs(y1 - y0);
    var there, back := Line(x0, y0, x1, y1), Line(x1, y1, x0, y0);
    forall k: nat | k < |there|
      ensures back[|there| - 1 - k] == there[k] <==> !IsTie(Max(dx, dy), Min(dx, dy), k)
    {
      PointMirror(x0, y0, x1, y1, k);
    }
  }

  ghost predicate Reversed(a: seq<Point>, b: seq<Point>)
    requires |a| == |b|
  {
    forall k: nat :: k < |a| ==> b[|a| - 1 - k] == a[k]
  }

  function Min(a: nat, b: nat): nat {
    if a < b then a else b
  }

  // ----- drawing

  /** A canvas of h rows of stride words, of which the first w of a row are visible. */
  ghost predicate IsCanvas(fb: seq<Color>, stride: nat, w: nat, h: nat) {
    w <= stride && h * stride <= |fb|
  }

  predicate Visible(p: Point, w: nat, h: nat) {
    0 <= p.x < w && 0 <= p.y < h
  }

  lemma OffsetInRange(x: int, y: int, stride: nat, w: nat, h: nat)
    requires w <= stride && 0 <= x < w && 0 <= y < h
    ensures 0 <= y * stride + x < h * stride
  {
    MulMonotone(0, y, stride);
    MulMonotone(y + 1, h, stride);
    assert (y + 1) * stride == y * stride + stride;
  }

  lemma OffsetInjective(p: Point, q: Point, stride: nat)
    requires 0 <= p.x < stride && 0 <= q.x < stride
    requires p.y * stride + p.x == q.y * stride + q.x
    ensures p == q
  {
    assert (p.y + 1) * stride == p.y * stride + stride && (q.y + 1) * stride == q.y * stride + stride;
    if p.y < q.y {
      MulMonotone(p.y + 1, q.y, stride);
    } else if q.y < p.y {
      MulMonotone(q.y + 1, p.y, stride);
    }
  }

  function Plot(fb: seq<Color>, stride: nat, w: nat, h: nat, p: Point, color: Color): (r: seq<Color>)
    requires IsCanvas(fb, stride, w, h)
    ensures |r| == |fb|
  {
    if Visible(p, w, h) then
      OffsetInRange(p.x, p.y, stride, w, h);
      fb[p.y * stride + p.x := color]
    else fb
  }

  function PlotAll(fb: seq<Color>, stride: nat, w: nat, h: nat, pts: seq<Point>, color: Color): (r: seq<Color>)
    requires IsCanvas(fb, stride, w, h)
    ensures |r| == |fb|
    decreases |pts|
  {
    if |pts| == 0 then fb
    else Plot(PlotAll(fb, stride, w, h, pts[..|pts| - 1], color), stride, w, h, pts[|pts| - 1], color)
  }

  /** Plotting colours exactly the visible points of the list: every visible pixel outside the
      list, and every word past the visible part of a row, keeps its old value. */
  lemma {:induction false} PlotAllPixel(fb: seq<Color>, stride: nat, w: nat, h: nat, pts: seq<Point>, color: Color,
                                        q: Point)
    requires IsCanvas(fb, stride, w, h)
    requires 0 <= q.x < stride && 0 <= q.y < h
    ensures 0 <= q.y * stride + q.x < |fb|
    ensures PlotAll(fb, stride, w, h, pts, color)[q.y * stride + q.x] ==
            if q in pts && q.x < w then color else fb[q.y * stride + q.x]
    decreases |pts|
  {
    OffsetInRange(q.x, q.y, stride, stride, h);
    if |pts| > 0 {
      var p, init := pts[|pts| - 1], pts[..|pts| - 1];
      PlotAllPixel(fb, stride, w, h, init, color, q);
      assert pts == init + [p];
      if Visible(p, w, h) && p != q {
        OffsetInRange(p.x, p.y, stride, w, h);
        if p.y * stride + p.x == q.y * stride + q.x {
          OffsetInjective(p, q, stride);
        }
      }
    }
  }

  method PutPixel(fb: array<Color>, stride: nat, w: nat, h: nat, x: int, y: int, c: Color)
    requires IsCanvas(fb[..], stride, w, h)
    modifies fb
    ensures fb[..] == Plot(old(fb[..]), stride, w, h, Point(x, y), c)
  {
    if x >= 0 && x < w && y >= 0 && y < h {
      OffsetInRange(x, y, stride, w, h);
      fb[y * stride + x] := c;
    }
  }

  /** The loop leaves at the far endpoint, having plotted exactly the rounded ideal line. */
  method DrawLine(fb: array<Color>, stride: nat, w: nat, h: nat,
                  fromX: int, fromY: int, x1: int, y1: int, color: Color)
    requires IsCanvas(fb[..], stride, w, h)
    modifies fb
    ensures fb[..] == PlotAll(old(fb[..]), stride, w, h, Line(fromX, fromY, x1, y1), color)
  {
    hide Line, PlotAll, Plot, ErrorTerm;
    var x0, y0 := fromX, fromY;
    var dx: int, dy: int := Abs(x1 - x0), Abs(y1 - y0);
    var sx := if x0 < x1 then 1 else -1;
    var sy := if y0 < y1 then 1 else -1;
    var err := dx - dy;
    ghost var line := Line(fromX, fromY, x1, y1);
    ghost var k := 0;
    LineEndpoints(fromX, fromY, x1, y1);
    LineStart(dx, dy);
    assert PlotAll(fb[..], stride, w, h, line[..0], color) == fb[..] by {
      NoPlot(fb[..], stride, w, h, line[..0], color);
    }
    while true
      invariant 0 <= k < |line| && line[k] == Point(x0, y0)
      invariant err == ErrorTerm(dx, dy, k)
      invariant fb[..] == PlotAll(old(fb[..]), stride, w, h, line[..k], color)
      decreases |line| - k
    {
      PutPixel(fb, stride, w, h, x0, y0, color);
      PlotNext(old(fb[..]), stride, w, h, line, color, k);
      if x0 == x1 && y0 == y1 {
        LineMeetsEndOnce(fromX, fromY, x1, y1, k);
        assert line[..k + 1] == line;
        break;
      }
      LineStep(fromX, fromY, x1, y1, k);
      var e2 := 2 * err;
      if e2 > -dy {
        err := err - dy;
        x0 := x0 + sx;
      }
      if e2 < dx {
        err := err + dx;
        y0 := y0 + sy;
      }
      k := k + 1;
    }
  }

  lemma NoPlot(fb: seq<Color>, stride: nat, w: nat, h: nat, pts: seq<Point>, color: Color)
    requires IsCanvas(fb, stride, w, h) && pts == []
    ensures PlotAll(fb, stride, w, h, pts, color) == fb
  {
  }

  lemma PlotNext(fb: seq<Color>, stride: nat, w: nat, h: nat, pts: seq<Point>, color: Color, k: nat)
    requires IsCanvas(fb, stride, w, h) && k < |pts|
    ensures PlotAll(fb, stride, w, h, pts[..k + 1], color) ==
            Plot(PlotAll(fb, stride, w, h, pts[..k], color), stride, w, h, pts[k], color)
  {
    assert pts[..k + 1][..k] == pts[..k];
  }

  lemma LineStart(dx: nat, dy: nat)
    ensures ErrorTerm(dx, dy, 0) == dx - dy
  {
    if dx >= dy && dx > 0 {
      NearestEnds(dx, dy);
    } else if dx < dy {
      NearestEnds(dy, dx);
    }
  }

  /** One pass of the loop body, in terms of the ideal line. */
  lemma LineStep(x0: int, y0: int, x1: int, y1: int, k: nat)
    requires k <= Max(Abs(x1 - x0), Abs(y1 - y0))
    requires Line(x0, y0, x1, y1)[k] != Point(x1, y1)
    ensures k < Max(Abs(x1 - x0), Abs(y1 - y0))
    ensures var dx: int, dy: int := Abs(x1 - x0), Abs(y1 - y0);
            var p, q := Line(x0, y0, x1, y1)[k], Line(x0, y0, x1, y1)[k + 1];
            var err := ErrorTerm(dx, dy, k);
            var alongX, alongY := 2 * err > -dy, 2 * err < dx;
            && q.x == p.x + (if !alongX then 0 else if x0 < x1 then 1 else -1)
            && q.y == p.y + (if !alongY then 0 else if y0 < y1 then 1 else -1)
            && ErrorTerm(dx, dy, k + 1) ==
               err - (if alongX then dy else 0) + (if alongY then dx else 0)
  {
    var dx: nat, dy: nat := Abs(x1 - x0), Abs(y1 - y0);
    LineEndpoints(x0, y0, x1, y1);
    ErrorTermDrives(dx, dy, k);
    ErrorTermNext(dx, dy, k);
  }

  lemma ErrorTermNext(dx: nat, dy: nat, k: nat)
    requires 0 <= XSteps(dx, dy, k + 1) - XSteps(dx, dy, k) <= 1
    requires 0 <= YSteps(dx, dy, k + 1) - YSteps(dx, dy, k) <= 1
    ensures ErrorTerm(dx, dy, k + 1) == ErrorTerm(dx, dy, k)
                                        - (if XSteps(dx, dy, k + 1) == XSteps(dx, dy, k) then 0 else dy)
                                        + (if YSteps(dx, dy, k + 1) == YSteps(dx, dy, k) then 0 else dx)
  {
    var i, j := XSteps(dx, dy, k) + 1, YSteps(dx, dy, k) + 1;
    assert (i + 1) * dy == i * dy + dy && (j + 1) * dx == j * dx + dx;
  }

  /** Only the last point of the line is its far endpoint. */
  lemma LineMeetsEndOnce(x0: int, y0: int, x1: int, y1: int, k: nat)
    requires k <= Max(Abs(x1 - x0), Abs(y1 - y0))
    requires Line(x0, y0, x1, y1)[k] == Point(x1, y1)
    ensures k == Max(Abs(x1 - x0), Abs(y1 - y0))
  {
  }
}
