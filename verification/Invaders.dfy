/** The invaders game's bookkeeping: the marching formation, kills, score, lives and levels.
    Bullets are left to the frame inputs: which are in flight, which alien each one touches,
    and how many alien bullets strike the ship. */
module Invaders {
  import opened Basics

  const ALIEN_ROWS: nat := 5
  const ALIEN_COLS: nat := 11
  const ALIEN_WIDTH := 24
  const ALIEN_HEIGHT := 18
  const ALIEN_SPACING_X := 36
  const ALIEN_SPACING_Y := 30
  const ALIEN_MOVE_SPEED := 2
  const ALIEN_DROP_AMOUNT := 12
  const ALIEN_INITIAL_DELAY := 30
  const ALIEN_MIN_DELAY := 4
  const SHIP_MARGIN := 30

  datatype Cell = Cell(row: nat, col: nat)

  function AlienPoints(row: nat): int
    requires row < ALIEN_ROWS
  {
    [50, 40, 30, 20, 10][row]
  }

  /** live holds the aliens still alive; offsets are whole pixels; deficit is the value of the
      aliens that a restart did not bring back. */
  datatype Game = Game(live: set<Cell>, aliveCount: int, offsetX: int, offsetY: int, direction: int,
                       moveTimer: int, moveDelay: int, score: int, level: int, lives: int,
                       over: bool, paused: bool, width: int, height: int, deficit: int)

  datatype Frame = Frame(armed: seq<bool>, hits: (nat, Cell) -> bool, strikes: nat)

  datatype Event = Update(frame: Frame) | PressFire | PressPause

  // ----- the grid

  function RowOf(row: nat, n: nat): set<Cell> {
    set c: nat | c < n :: Cell(row, c)
  }

  /** The first n rows of a full formation. */
  function Rows(n: nat): set<Cell> {
    set r: nat, c: nat | r < n && c < ALIEN_COLS :: Cell(r, c)
  }

  predicate OnGrid(live: set<Cell>) {
    forall x :: x in live ==> x.row < ALIEN_ROWS && x.col < ALIEN_COLS
  }

  function InRow(live: set<Cell>, row: nat): set<Cell> {
    set x | x in live && x.row == row
  }

  /** Points the formation can still bring, row by row. */
  function Worth(live: set<Cell>, rows: nat): int
    requires rows <= ALIEN_ROWS
  {
    if rows == 0 then 0 else Worth(live, rows - 1) + AlienPoints(rows - 1) * |InRow(live, rows - 1)|
  }

  lemma {:induction false} WorthOfKill(live: set<Cell>, x: Cell, rows: nat)
    requires x in live && rows <= ALIEN_ROWS
    ensures Worth(live - {x}, rows) ==
            Worth(live, rows) - if x.row < rows then AlienPoints(x.row) else 0
  {
    if rows > 0 {
      WorthOfKill(live, x, rows - 1);
      var row := rows - 1;
      if x.row == row {
        assert InRow(live - {x}, row) == InRow(live, row) - {x};
      } else {
        assert InRow(live - {x}, row) == InRow(live, row);
      }
    }
  }

  lemma {:induction false} RowSize(row: nat, n: nat)
    ensures |RowOf(row, n)| == n
  {
    if n == 0 {
      assert RowOf(row, n) == {};
    } else {
      RowSize(row, n - 1);
      assert RowOf(row, n) == RowOf(row, n - 1) + {Cell(row, n - 1)};
    }
  }

  lemma {:induction false} RowsSize(n: nat)
    ensures |Rows(n)| == ALIEN_COLS * n
  {
    if n == 0 {
      assert Rows(n) == {};
    } else {
      RowsSize(n - 1);
      RowSize(n - 1, ALIEN_COLS);
      assert Rows(n) == Rows(n - 1) + RowOf(n - 1, ALIEN_COLS);
      assert Rows(n - 1) !! RowOf(n - 1, ALIEN_COLS);
    }
  }

  lemma FullRow(row: nat)
    requires row < ALIEN_ROWS
    ensures |InRow(Rows(ALIEN_ROWS), row)| == ALIEN_COLS
  {
    RowSize(row, ALIEN_COLS);
    assert InRow(Rows(ALIEN_ROWS), row) == RowOf(row, ALIEN_COLS);
  }

  /** A full formation is 55 aliens worth 1650 points. */
  lemma FullFormation()
    ensures |Rows(ALIEN_ROWS)| == 55 && Worth(Rows(ALIEN_ROWS), ALIEN_ROWS) == 1650
  {
    RowsSize(ALIEN_ROWS);
    FullRow(0);
    FullRow(1);
    FullRow(2);
    FullRow(3);
    FullRow(4);
    var full := Rows(ALIEN_ROWS);
    assert Worth(full, 1) == 550;
    assert Worth(full, 2) == 550 + 440;
    assert Worth(full, 3) == 550 + 440 + 330;
    assert Worth(full, 4) == 550 + 440 + 330 + 220;
  }

  // ----- the step functions

  function InitialDelay(level: int): int {
    var delay := ALIEN_INITIAL_DELAY - (level - 1) * 3;
    if delay < ALIEN_MIN_DELAY then ALIEN_MIN_DELAY else delay
  }

  function InitAliens(g: Game): Game {
    g.(live := Rows(ALIEN_ROWS), aliveCount := ALIEN_ROWS * ALIEN_COLS, offsetX := 20, offsetY := 40,
       direction := 1, moveTimer := 0, moveDelay := InitialDelay(g.level))
  }

  function Start(width: int, height: int): Game {
    InitAliens(Game({}, 0, 0, 0, 0, 0, 0, 0, 1, 3, false, false, width, height, 0))
  }

  function AlienX(g: Game, x: Cell): int {
    g.offsetX + x.col * ALIEN_SPACING_X
  }

  function AlienY(g: Game, x: Cell): int {
    g.offsetY + x.row * ALIEN_SPACING_Y
  }

  predicate AtEdge(g: Game, x: Cell) {
    || (g.direction > 0 && AlienX(g, x) + ALIEN_WIDTH >= g.width - 10)
    || (g.direction < 0 && AlienX(g, x) <= 10)
  }

  predicate NeedDrop(g: Game) {
    exists x :: x in g.live && AtEdge(g, x)
  }

  function Advance(g: Game): Game {
    if NeedDrop(g) then
      g.(offsetY := g.offsetY + ALIEN_DROP_AMOUNT, direction := -g.direction,
         moveDelay := if g.moveDelay > ALIEN_MIN_DELAY then g.moveDelay - 1 else g.moveDelay)
    else
      g.(offsetX := g.offsetX + g.direction * ALIEN_MOVE_SPEED)
  }

  function March(g: Game): Game {
    if g.moveTimer + 1 >= g.moveDelay then Advance(g.(moveTimer := 0))
    else g.(moveTimer := g.moveTimer + 1)
  }

  function DelayFor(aliveCount: int): int {
    var delay := ALIEN_INITIAL_DELAY * aliveCount / (ALIEN_ROWS * ALIEN_COLS);
    if delay < ALIEN_MIN_DELAY then ALIEN_MIN_DELAY else delay
  }

  function Kill(g: Game, x: Cell): Game
    requires x.row < ALIEN_ROWS
  {
    var count := g.aliveCount - 1;
    g.(live := g.live - {x}, aliveCount := count, score := g.score + AlienPoints(x.row),
       moveDelay := if count > 0 then DelayFor(count) else g.moveDelay)
  }

  /** The first live alien that bullet b touches, searching row by row from (row, col). */
  function FirstHit(live: set<Cell>, hits: (nat, Cell) -> bool, b: nat, row: nat, col: nat): (x: Option<Cell>)
    requires row <= ALIEN_ROWS && col <= ALIEN_COLS
    ensures x.Some? ==> x.value in live && hits(b, x.value) && x.value.row < ALIEN_ROWS && x.value.col < ALIEN_COLS
    decreases ALIEN_ROWS - row, ALIEN_COLS - col
  {
    if row == ALIEN_ROWS then None
    else if col == ALIEN_COLS then FirstHit(live, hits, b, row + 1, 0)
    else if Cell(row, col) in live && hits(b, Cell(row, col)) then Some(Cell(row, col))
    else FirstHit(live, hits, b, row, col + 1)
  }

  lemma FirstHitStep(live: set<Cell>, hits: (nat, Cell) -> bool, b: nat, row: nat, col: nat)
    requires row < ALIEN_ROWS && col <= ALIEN_COLS
    ensures FirstHit(live, hits, b, row, col) ==
            if col == ALIEN_COLS then FirstHit(live, hits, b, row + 1, 0)
            else if Cell(row, col) in live && hits(b, Cell(row, col)) then Some(Cell(row, col))
            else FirstHit(live, hits, b, row, col + 1)
    ensures FirstHit(live, hits, b, ALIEN_ROWS, 0) == None
  {
  }

  function Shoot(g: Game, f: Frame, b: nat): Game
    requires b < |f.armed|
  {
    var x := FirstHit(g.live, f.hits, b, 0, 0);
    if f.armed[b] && x.Some? then Kill(g, x.value) else g
  }

  function ShootFrom(g: Game, f: Frame, b: nat): Game
    requires b <= |f.armed|
    decreases |f.armed| - b
  {
    if b == |f.armed| then g else ShootFrom(Shoot(g, f, b), f, b + 1)
  }

  function Strike(g: Game, strikes: nat): Game {
    if strikes == 0 then g
    else
      var s := Strike(g, strikes - 1);
      s.(lives := s.lives - 1, over := s.over || s.lives - 1 <= 0)
  }

  predicate AtShip(g: Game, x: Cell) {
    AlienY(g, x) + ALIEN_HEIGHT >= g.height - SHIP_MARGIN
  }

  predicate ReachedShip(g: Game) {
    exists x :: x in g.live && AtShip(g, x)
  }

  /** The end of a frame: the formation reaching the ship comes before a cleared level. */
  function CheckEnd(g: Game): Game {
    if ReachedShip(g) then g.(over := true)
    else if g.aliveCount <= 0 then InitAliens(g.(level := g.level + 1))
    else g
  }

  function Apply(g: Game, e: Event): Game {
    match e
    case Update(f) =>
      if g.paused || g.over then g
      else CheckEnd(Strike(ShootFrom(March(g), f, 0), f.strikes))
    case PressFire =>
      // a new game keeps the old formation
      if g.over then
        g.(over := false, score := 0, lives := 3, level := 1, deficit := 1650 - Worth(g.live, ALIEN_ROWS))
      else g
    case PressPause => if g.over then g else g.(paused := !g.paused)
  }

  function Play(g: Game, events: seq<Event>): Game
    decreases |events|
  {
    if |events| == 0 then g else Play(Apply(g, events[0]), events[1..])
  }

  // ----- invariants

  /** The formation alone: the count is right, delays and timer are in range, and every live alien
      is right of the left margin and left of the right one (or of where it started). */
  ghost predicate Marching(g: Game) {
    && OnGrid(g.live) && g.aliveCount == |g.live|
    && (g.direction == 1 || g.direction == -1)
    && 0 <= g.moveTimer < ALIEN_INITIAL_DELAY
    && ALIEN_MIN_DELAY <= g.moveDelay <= ALIEN_INITIAL_DELAY
    && g.level >= 1 && g.offsetY >= 40
    && forall x :: x in g.live ==> 8 < AlienX(g, x) <= RightMost(g.width)
  }

  /** The largest x a live alien can have. */
  function RightMost(width: int): int {
    if width > 412 then width - 33 else 380
  }

  ghost predicate Balanced(g: Game) {
    && g.score + Worth(g.live, ALIEN_ROWS) + g.deficit == 1650 * g.level
    && g.deficit >= 0
  }

  ghost predicate Inv(g: Game) {
    Marching(g) && Balanced(g) && g.live != {}
  }

  lemma StartInv(width: int, height: int)
    ensures Inv(Start(width, height)) && Start(width, height).deficit == 0
  {
    FullFormation();
    assert Cell(0, 0) in Rows(ALIEN_ROWS);
  }

  lemma MarchKeeps(g: Game)
    requires Marching(g)
    ensures Marching(March(g)) && OnlyMarched(g, March(g))
  {
    hide Advance, RightMost;
    AdvanceKeeps(g.(moveTimer := 0));
  }

  lemma AdvanceKeeps(g: Game)
    requires Marching(g)
    ensures Marching(Advance(g)) && OnlyMarched(g, Advance(g))
  {
  }

  /** What marching can change. */
  ghost predicate OnlyMarched(g: Game, r: Game) {
    r == g.(offsetX := r.offsetX, offsetY := r.offsetY, direction := r.direction,
            moveTimer := r.moveTimer, moveDelay := r.moveDelay)
  }

  lemma KillKeeps(g: Game, x: Cell)
    requires Marching(g) && Balanced(g) && x in g.live
    ensures Marching(Kill(g, x)) && Balanced(Kill(g, x))
  {
    WorthOfKill(g.live, x, ALIEN_ROWS);
    SubsetOfGrid(g.live);
  }

  lemma SubsetOfGrid(live: set<Cell>)
    requires OnGrid(live)
    ensures |live| <= 55
  {
    FullFormation();
    assert live <= Rows(ALIEN_ROWS);
    SubsetSize(live, Rows(ALIEN_ROWS));
  }

  lemma SubsetSize(a: set<Cell>, b: set<Cell>)
    requires a <= b
    ensures |a| <= |b|
  {
    assert b == a + (b - a);
  }

  /** What bullets cannot change. */
  ghost predicate OnlyShot(g: Game, r: Game) {
    && r.live <= g.live
    && r == g.(live := r.live, aliveCount := r.aliveCount, score := r.score, moveDelay := r.moveDelay)
  }

  lemma ShootKeeps(g: Game, f: Frame, b: nat)
    requires Marching(g) && Balanced(g) && b < |f.armed|
    ensures var r := Shoot(g, f, b); Marching(r) && Balanced(r) && OnlyShot(g, r)
  {
    var x := FirstHit(g.live, f.hits, b, 0, 0);
    if f.armed[b] && x.Some? {
      KillKeeps(g, x.value);
    }
  }

  lemma {:induction false} ShootFromKeeps(g: Game, f: Frame, b: nat)
    requires Marching(g) && Balanced(g) && b <= |f.armed|
    ensures var r := ShootFrom(g, f, b); Marching(r) && Balanced(r) && OnlyShot(g, r)
    decreases |f.armed| - b
  {
    hide Shoot;
    if b < |f.armed| {
      ShootKeeps(g, f, b);
      ShootFromKeeps(Shoot(g, f, b), f, b + 1);
    }
  }

  lemma {:induction false} StrikeKeeps(g: Game, strikes: nat)
    ensures var r := Strike(g, strikes);
            && r == g.(lives := g.lives - strikes, over := r.over)
            && (r.over <==> g.over || (strikes > 0 && g.lives - strikes <= 0))
  {
    if strikes > 0 {
      StrikeKeeps(g, strikes - 1);
    }
  }

  lemma CheckEndKeeps(g: Game)
    requires Marching(g) && Balanced(g)
    ensures Inv(CheckEnd(g))
  {
    FullFormation();
    assert Cell(0, 0) in Rows(ALIEN_ROWS);
    if g.aliveCount <= 0 {
      assert g.live == {};
      EmptyWorth(ALIEN_ROWS);
    } else if g.live == {} {
      assert false;
    }
  }

  lemma {:induction false} EmptyWorth(rows: nat)
    requires rows <= ALIEN_ROWS
    ensures Worth({}, rows) == 0
  {
    if rows > 0 {
      EmptyWorth(rows - 1);
      assert InRow({}, rows - 1) == {};
    }
  }

  lemma {:induction false} WorthBounded(live: set<Cell>, rows: nat)
    requires OnGrid(live) && rows <= ALIEN_ROWS
    ensures Worth(live, rows) <= Worth(Rows(ALIEN_ROWS), rows)
  {
    if rows > 0 {
      WorthBounded(live, rows - 1);
      FullRow(rows - 1);
      assert InRow(live, rows - 1) <= InRow(Rows(ALIEN_ROWS), rows - 1);
      SubsetSize(InRow(live, rows - 1), InRow(Rows(ALIEN_ROWS), rows - 1));
    }
  }

  /** The game just before the end-of-frame checks. */
  function BeforeEnd(g: Game, f: Frame): Game {
    Strike(ShootFrom(March(g), f, 0), f.strikes)
  }

  lemma BeforeEndKeeps(g: Game, f: Frame)
    requires Inv(g)
    ensures var r := BeforeEnd(g, f);
            && Marching(r) && Balanced(r) && r.live <= g.live
            && r.offsetX == March(g).offsetX && r.offsetY == March(g).offsetY
            && r.direction == March(g).direction && r.moveTimer == March(g).moveTimer
            && r.level == g.level && r.width == g.width && r.height == g.height && r.deficit == g.deficit
  {
    hide ShootFrom, March, Strike;
    MarchKeeps(g);
    ShootFromKeeps(March(g), f, 0);
    StrikeKeeps(ShootFrom(March(g), f, 0), f.strikes);
  }

  lemma ApplyKeeps(g: Game, e: Event)
    requires Inv(g)
    ensures Inv(Apply(g, e))
  {
    match e
    case Update(f) =>
      if !g.paused && !g.over {
        BeforeEndKeeps(g, f);
        CheckEndKeeps(BeforeEnd(g, f));
      }
    case PressFire =>
      FullFormation();
      WorthBounded(g.live, ALIEN_ROWS);
    case PressPause =>
  }

  lemma {:induction false} PlayKeeps(g: Game, events: seq<Event>)
    requires Inv(g)
    ensures Inv(Play(g, events)) && Play(g, events).width == g.width && Play(g, events).height == g.height
    decreases |events|
  {
    if |events| > 0 {
      ApplyKeeps(g, events[0]);
      ScreenKept(g, events[0]);
      PlayKeeps(Apply(g, events[0]), events[1..]);
    }
  }

  lemma ScreenKept(g: Game, e: Event)
    requires Inv(g)
    ensures Apply(g, e).width == g.width && Apply(g, e).height == g.height
    ensures !(e.PressFire? && g.over) ==> Apply(g, e).deficit == g.deficit
  {
    if e.Update? {
      BeforeEndKeeps(g, e.frame);
    }
  }

  /** Every reachable state: the count is exact, live aliens keep clear of both margins on any
      screen wider than 412 pixels, and score plus what the formation is worth never exceeds 1650
      points per level; what is missing is what restarts found already shot. */
  lemma ReachableStates(width: int, height: int, events: seq<Event>)
    ensures var g := Play(Start(width, height), events);
            && g.aliveCount == |g.live|
            && (width > 412 ==> forall x :: x in g.live ==>
                  8 < AlienX(g, x) && AlienX(g, x) + ALIEN_WIDTH < width - 8)
            && g.score + Worth(g.live, ALIEN_ROWS) == 1650 * g.level - g.deficit
            && g.deficit >= 0
  {
    StartInv(width, height);
    PlayKeeps(Start(width, height), events);
  }

  /** The right margin holds from the first frame on exactly when the screen is wide enough. */
  lemma StartMargin(width: int, height: int)
    ensures (forall x :: x in Start(width, height).live ==>
               AlienX(Start(width, height), x) + ALIEN_WIDTH < width - 8)
            <==> width > 412
  {
    assert Cell(0, 10) in Start(width, height).live;
  }

  /** Fire is never pressed after the game was over: while it is on, the key only shoots. */
  predicate NoRestart(g: Game, events: seq<Event>)
    decreases |events|
  {
    |events| == 0 || (!(g.over && events[0].PressFire?) && NoRestart(Apply(g, events[0]), events[1..]))
  }

  /** Before the first restart nothing is missing. */
  lemma {:induction false} ExactUntilRestart(g: Game, events: seq<Event>)
    requires Inv(g) && g.deficit == 0 && NoRestart(g, events)
    ensures var r := Play(g, events); r.score + Worth(r.live, ALIEN_ROWS) == 1650 * r.level
    decreases |events|
  {
    if |events| > 0 {
      ApplyKeeps(g, events[0]);
      ScreenKept(g, events[0]);
      ExactUntilRestart(Apply(g, events[0]), events[1..]);
    }
  }

  /** A restart makes the account exact again if and only if all 55 aliens are alive. */
  lemma RestartDeficit(g: Game)
    requires Inv(g) && g.over
    ensures Apply(g, PressFire).deficit == 0 <==> |g.live| == 55
  {
    FullFormation();
    if |g.live| == 55 {
      SubsetIsWhole(g.live, Rows(ALIEN_ROWS));
    } else {
      MissingAlien(g.live);
    }
  }

  lemma SubsetIsWhole(a: set<Cell>, b: set<Cell>)
    requires a <= b && |a| == |b|
    ensures a == b
  {
    assert b == a + (b - a);
  }

  lemma MissingAlien(live: set<Cell>)
    requires OnGrid(live) && |live| != 55
    ensures Worth(live, ALIEN_ROWS) < 1650
  {
    hide Worth;
    FullFormation();
    var full := Rows(ALIEN_ROWS);
    SubsetOfGrid(live);
    if full <= live {
      SubsetSize(full, live);
    }
    var x :| x in full && x !in live;
    WorthOfKill(live + {x}, x, ALIEN_ROWS);
    assert live + {x} - {x} == live;
    assert AlienPoints(x.row) >= 10;
    WorthBounded(live + {x}, ALIEN_ROWS);
  }

  /** The formation that ended a game is still there after the restart. The first frame ends the
      new game again if and only if an alien is at the ship after the frame's shots or all three
      lives are lost in it; so it does when the shots spare one alien that was low enough, and
      whenever the formation was at the ship and no bullet is in flight. */
  lemma RestartAfterReach(g: Game, f: Frame)
    requires Inv(g) && g.over && !g.paused
    ensures var r := Apply(g, PressFire);
            var over := Apply(r, Update(f)).over;
            && (over <==> ReachedShip(BeforeEnd(r, f)) || f.strikes >= 3)
            && ((exists x :: x in BeforeEnd(r, f).live && AtShip(g, x)) ==> over)
            && (ReachedShip(g) && NoneArmed(f) ==> over)
  {
    hide BeforeEnd, Strike, Worth;
    var r := Apply(g, PressFire);
    var b := BeforeEnd(r, f);
    ApplyKeeps(g, PressFire);
    BeforeEndKeeps(r, f);
    BeforeEndOver(r, f);
    UpdateIsEnd(r, f);
    MarchGoesDown(r);
    if x :| x in b.live && AtShip(g, x) {
      assert AlienY(b, x) >= AlienY(g, x);
    }
  }

  predicate NoneArmed(f: Frame) {
    forall b :: 0 <= b < |f.armed| ==> !f.armed[b]
  }

  lemma BeforeEndOver(g: Game, f: Frame)
    requires Inv(g)
    ensures BeforeEnd(g, f).over <==> g.over || (f.strikes > 0 && g.lives <= f.strikes)
    ensures NoneArmed(f) ==> BeforeEnd(g, f).live == g.live
  {
    hide ShootFrom, March, Strike;
    MarchKeeps(g);
    ShootFromKeeps(March(g), f, 0);
    StrikeKeeps(ShootFrom(March(g), f, 0), f.strikes);
    if NoneArmed(f) {
      NoShots(March(g), f, 0);
    }
  }

  lemma {:induction false} NoShots(g: Game, f: Frame, b: nat)
    requires b <= |f.armed| && NoneArmed(f)
    ensures ShootFrom(g, f, b) == g
    decreases |f.armed| - b
  {
    if b < |f.armed| {
      NoShots(g, f, b + 1);
    }
  }

  // ----- a frame in full

  predicate Precedes(x: Cell, y: Cell) {
    x.row < y.row || (x.row == y.row && x.col < y.col)
  }

  /** Only a bullet in flight that touches a live alien does anything: it destroys the first one it
      touches, row by row, for 50 points in the top row down to 10 in the lowest; as long as aliens
      are left, their delay is 30 frames times the part alive, at least 4. */
  ghost predicate BulletEffect(g: Game, f: Frame, b: nat, r: Game)
    requires b < |f.armed|
  {
    && (!f.armed[b] || (forall x :: x in g.live ==> !f.hits(b, x)) ==> r == g)
    && forall x :: x in g.live && f.armed[b] && f.hits(b, x)
                   && (forall y :: y in g.live && f.hits(b, y) ==> y == x || Precedes(x, y))
         ==>
           && r == g.(live := g.live - {x}, aliveCount := g.aliveCount - 1, score := r.score, moveDelay := r.moveDelay)
           && r.score == g.score + 50 - 10 * x.row
           && r.moveDelay == (if g.aliveCount <= 1 then g.moveDelay
                              else if 30 * (g.aliveCount - 1) / 55 < 4 then 4 else 30 * (g.aliveCount - 1) / 55)
  }

  /** The search meets every cell from (row, col) on, and returns the first that is alive and touched. */
  lemma {:induction false} FirstHitIsFirst(live: set<Cell>, hits: (nat, Cell) -> bool, b: nat, row: nat, col: nat)
    requires OnGrid(live) && row <= ALIEN_ROWS && col <= ALIEN_COLS
    ensures var x := FirstHit(live, hits, b, row, col);
            && (x.Some? ==> !Precedes(x.value, Cell(row, col)))
            && forall y :: y in live && hits(b, y) && !Precedes(y, Cell(row, col)) ==>
                 x.Some? && (y == x.value || Precedes(x.value, y))
    decreases ALIEN_ROWS - row, ALIEN_COLS - col
  {
    if row < ALIEN_ROWS {
      FirstHitStep(live, hits, b, row, col);
      if col == ALIEN_COLS {
        FirstHitIsFirst(live, hits, b, row + 1, 0);
      } else if !(Cell(row, col) in live && hits(b, Cell(row, col))) {
        FirstHitIsFirst(live, hits, b, row, col + 1);
      }
    }
  }

  lemma ShotIsRight(g: Game, f: Frame, b: nat)
    requires OnGrid(g.live) && b < |f.armed|
    ensures BulletEffect(g, f, b, Shoot(g, f, b))
  {
    hide FirstHit;
    FirstHitIsFirst(g.live, f.hits, b, 0, 0);
  }

  lemma ShotTrace(g: Game, f: Frame) returns (t: seq<Game>)
    requires OnGrid(g.live)
    ensures |t| == |f.armed| + 1 && t[0] == g && t[|f.armed|] == ShootFrom(g, f, 0)
    ensures forall b :: 0 <= b < |f.armed| ==> BulletEffect(t[b], f, b, t[b + 1])
  {
    hide BulletEffect, Shoot;
    t := [g];
    for n := 0 to |f.armed|
      invariant |t| == n + 1 && t[0] == g && OnGrid(t[n].live)
      invariant ShootFrom(t[n], f, n) == ShootFrom(g, f, 0)
      invariant forall b :: 0 <= b < n ==> BulletEffect(t[b], f, b, t[b + 1])
    {
      ShotIsRight(t[n], f, n);
      ShotLeavesGrid(t[n], f, n);
      t := t + [Shoot(t[n], f, n)];
    }
  }

  lemma ShotLeavesGrid(g: Game, f: Frame, b: nat)
    requires OnGrid(g.live) && b < |f.armed|
    ensures OnGrid(Shoot(g, f, b).live)
  {
  }

  /** The march: nothing but the timer until the delay is over; then a drop of 12 with a turn and a
      shorter delay if a live alien has come within 10 pixels of the edge ahead, else 2 pixels on. */
  lemma MarchIsRight(g: Game)
    ensures g.moveTimer + 1 < g.moveDelay ==> March(g) == g.(moveTimer := g.moveTimer + 1)
    ensures g.moveTimer + 1 >= g.moveDelay ==>
              if exists x :: x in g.live && ((g.direction > 0 && g.offsetX + 36 * x.col + 24 >= g.width - 10)
                                             || (g.direction < 0 && g.offsetX + 36 * x.col <= 10))
              then March(g) == g.(moveTimer := 0, offsetY := g.offsetY + 12, direction := -g.direction,
                                  moveDelay := if g.moveDelay > 4 then g.moveDelay - 1 else g.moveDelay)
              else March(g) == g.(moveTimer := 0, offsetX := g.offsetX + 2 * g.direction)
  {
    assert forall x :: AtEdge(g.(moveTimer := 0), x) <==>
                         ((g.direction > 0 && g.offsetX + 36 * x.col + 24 >= g.width - 10)
                          || (g.direction < 0 && g.offsetX + 36 * x.col <= 10));
  }

  /** A full formation at its place, with the delay of its level. */
  ghost predicate NewFormation(g: Game) {
    && (forall x :: x in g.live <==> x.row < 5 && x.col < 11) && g.aliveCount == 55
    && g.offsetX == 20 && g.offsetY == 40 && g.direction == 1 && g.moveTimer == 0
    && g.moveDelay == if 30 - 3 * (g.level - 1) < 4 then 4 else 30 - 3 * (g.level - 1)
  }

  ghost predicate LowAlien(g: Game) {
    exists x :: x in g.live && g.offsetY + 30 * x.row + 18 >= g.height - 30
  }

  /** A played frame: the march, then every bullet on what the earlier ones left, then the strikes;
      an alien within 30 pixels of the bottom ends the game, else no alien left brings the next level. */
  lemma FrameTrace(g: Game, f: Frame) returns (t: seq<Game>)
    requires Inv(g) && !g.paused && !g.over
    ensures |t| == |f.armed| + 1 && t[0] == March(g)
    ensures forall b :: 0 <= b < |f.armed| ==> BulletEffect(t[b], f, b, t[b + 1])
    ensures var l, r := t[|f.armed|], Apply(g, Update(f));
            && r.score == l.score && r.lives == l.lives - f.strikes && r.paused == g.paused
            && r.over == (LowAlien(l) || (f.strikes > 0 && r.lives <= 0))
            && (if l.live == {} && !LowAlien(l) then r.level == l.level + 1 && NewFormation(r)
                else r == l.(lives := r.lives, over := r.over))
  {
    hide BulletEffect, ShootFrom, March, Worth;
    MarchKeeps(g);
    ShootFromKeeps(March(g), f, 0);
    t := ShotTrace(March(g), f);
    var l := t[|f.armed|];
    StrikeKeeps(l, f.strikes);
    LowIsReached(Strike(l, f.strikes));
    assert LowAlien(Strike(l, f.strikes)) <==> LowAlien(l);
  }

  lemma LowIsReached(g: Game)
    ensures ReachedShip(g) <==> LowAlien(g)
  {
    assert forall x :: AtShip(g, x) <==> g.offsetY + 30 * x.row + 18 >= g.height - 30;
  }

  /** The keys, frames in which nothing happens, and a new game. */
  lemma KeysAndRest(g: Game, f: Frame)
    ensures g.paused || g.over ==> Apply(g, Update(f)) == g
    ensures Apply(g, PressPause) == if g.over then g else g.(paused := !g.paused)
    ensures !g.over ==> Apply(g, PressFire) == g
    ensures g.over ==>
              Apply(g, PressFire) == g.(over := false, score := 0, lives := 3, level := 1,
                                        deficit := Apply(g, PressFire).deficit)
  {
  }

  lemma StartIsRight(width: int, height: int)
    ensures var g := Start(width, height);
            && NewFormation(g) && g.score == 0 && g.lives == 3 && g.level == 1 && !g.over && !g.paused
            && g.width == width && g.height == height
  {
  }

  /** One bullet that touches everything takes the first alien of the top row. */
  lemma OneShot(g: Game, f: Frame)
    requires Inv(g) && !g.over && !g.paused && Cell(0, 0) in g.live && Cell(0, 1) in g.live
    requires f.armed == [true] && f.strikes == 0 && forall x :: f.hits(0, x)
    ensures var r := Apply(g, Update(f));
            r.score == g.score + 50 && r.aliveCount == g.aliveCount - 1 && r.live == g.live - {Cell(0, 0)}
  {
    hide March, Worth, LowAlien;
    MarchKeeps(g);
    var t := FrameTrace(g, f);
    assert BulletEffect(t[0], f, 0, t[1]);
    assert Cell(0, 1) in t[1].live;
  }

  /** In a new game that leaves 50 points and 54 aliens. */
  lemma FirstShot(f: Frame)
    requires f.armed == [true] && f.strikes == 0 && forall x :: f.hits(0, x)
    ensures var r := Apply(Start(1280, 720), Update(f));
            r.score == 50 && r.aliveCount == 54 && r.live == Start(1280, 720).live - {Cell(0, 0)}
  {
    hide Apply, Inv, Start, Rows;
    StartInv(1280, 720);
    StartIsRight(1280, 720);
    OneShot(Start(1280, 720), f);
  }

  /** A game is over for one of two reasons, and never goes on without lives. */
  ghost predicate OverFits(g: Game) {
    && g.lives <= 3 && (g.lives <= 0 ==> g.over)
    && (g.over ==> (g.lives <= 0 || ReachedShip(g)) && !g.paused)
  }

  lemma OverStep(g: Game, e: Event)
    requires Inv(g) && OverFits(g)
    ensures OverFits(Apply(g, e))
  {
    hide ShootFrom, March, ReachedShip;
    if e.Update? && !g.paused && !g.over {
      MarchKeeps(g);
      ShootFromKeeps(March(g), e.frame, 0);
      StrikeKeeps(ShootFrom(March(g), e.frame, 0), e.frame.strikes);
      OverIsKept(BeforeEnd(g, e.frame));
    }
  }

  lemma OverIsKept(g: Game)
    requires g.lives <= 3 && (g.over <==> g.lives <= 0) && !g.paused
    ensures OverFits(CheckEnd(g))
  {
  }

  lemma {:induction false} OverKept(g: Game, events: seq<Event>)
    requires Inv(g) && OverFits(g)
    ensures OverFits(Play(g, events))
    decreases |events|
  {
    hide Apply, OverFits;
    if |events| > 0 {
      ApplyKeeps(g, events[0]);
      OverStep(g, events[0]);
      OverKept(Apply(g, events[0]), events[1..]);
    }
  }

  /** In every reachable state a game without lives is over, and one that is over has no lives or
      an alien at the ship, and is not paused. */
  lemma OverFromStart(width: int, height: int, events: seq<Event>)
    ensures OverFits(Play(Start(width, height), events))
  {
    StartInv(width, height);
    OverKept(Start(width, height), events);
  }

  // ----- every level ends

  /** Drops until the topmost row would reach the ship. */
  function DropsLeft(g: Game): nat {
    var gap := g.height - SHIP_MARGIN - ALIEN_HEIGHT - g.offsetY;
    if gap <= 0 then 0 else (gap + ALIEN_DROP_AMOUNT - 1) / ALIEN_DROP_AMOUNT
  }

  /** The most moves between two drops. */
  function Crossing(width: int): nat {
    if width > 412 then (width - 42) / 2 else 185
  }

  /** No live alien can make more than m moves before it is at the edge ahead. */
  ghost predicate MovesLeft(g: Game, m: nat) {
    forall x :: x in g.live ==>
      if g.direction > 0 then AlienX(g, x) + ALIEN_WIDTH + 2 * m >= g.width - 10
      else AlienX(g, x) - 2 * m <= 10
  }

  /** Frames that may still pass, with m moves before the next drop. */
  function FramesLeft(g: Game, m: nat): int {
    (DropsLeft(g) * (Crossing(g.width) + 1) + m) * ALIEN_INITIAL_DELAY + (ALIEN_INITIAL_DELAY - g.moveTimer)
  }

  lemma CrossingEnough(g: Game)
    requires Marching(g)
    ensures MovesLeft(g, Crossing(g.width))
  {
  }

  /** One frame that does not end the level uses up time: either the timer, a move or a drop. */
  lemma MarchProgress(g: Game, m: nat) returns (m': nat)
    requires Inv(g) && MovesLeft(g, m) && DropsLeft(g) > 0
    ensures MovesLeft(March(g), m') && FramesLeft(March(g), m') < FramesLeft(g, m)
  {
    if g.moveTimer + 1 < g.moveDelay {
      m' := m;
    } else if NeedDrop(g) {
      DropProgress(g, m);
      m' := Crossing(g.width);
    } else {
      MoveProgress(g, m);
      m' := m - 1;
    }
  }

  lemma MoveProgress(g: Game, m: nat)
    requires Inv(g) && MovesLeft(g, m) && !NeedDrop(g) && g.moveTimer + 1 >= g.moveDelay
    ensures m > 0 && MovesLeft(March(g), m - 1) && FramesLeft(March(g), m - 1) < FramesLeft(g, m)
  {
    var x :| x in g.live;
    assert !AtEdge(g, x);
  }

  lemma DropProgress(g: Game, m: nat)
    requires Inv(g) && MovesLeft(g, m) && NeedDrop(g) && g.moveTimer + 1 >= g.moveDelay && DropsLeft(g) > 0
    ensures MovesLeft(March(g), Crossing(g.width)) && FramesLeft(March(g), Crossing(g.width)) < FramesLeft(g, m)
  {
    MarchKeeps(g);
    CrossingEnough(March(g));
    DropsCount(g);
    DropPays(DropsLeft(g), Crossing(g.width), m);
    assert March(g).moveTimer == 0 && March(g).width == g.width;
  }

  lemma DropsCount(g: Game)
    requires NeedDrop(g) && g.moveTimer + 1 >= g.moveDelay && DropsLeft(g) > 0
    ensures DropsLeft(March(g)) == DropsLeft(g) - 1
  {
  }

  lemma DropPays(drops: nat, crossing: nat, m: nat)
    requires drops > 0
    ensures (drops - 1) * (crossing + 1) + crossing + 1 <= drops * (crossing + 1) + m
  {
  }

  /** The level that was being played in state g is over in state r. */
  ghost predicate Ended(g: Game, r: Game) {
    r.over || r.level > g.level
  }

  /** A frame either ends the level or leaves fewer frames. */
  lemma FrameProgress(g: Game, m: nat, f: Frame) returns (m': nat)
    requires Inv(g) && !g.over && !g.paused && MovesLeft(g, m)
    ensures var r := Apply(g, Update(f));
            Ended(g, r) || (r.level == g.level && MovesLeft(r, m') && FramesLeft(r, m') < FramesLeft(g, m))
  {
    hide BeforeEnd, March;
    var b := BeforeEnd(g, f);
    BeforeEndKeeps(g, f);
    UpdateIsEnd(g, f);
    m' := m;
    if DropsLeft(g) > 0 {
      m' := MarchProgress(g, m);
      MarchKeeps(g);
      SameFormation(March(g), b, m');
    } else if b.live != {} {
      var x :| x in b.live;
      MarchKeeps(g);
      MarchGoesDown(g);
      assert AtShip(b, x);
    }
  }

  lemma UpdateIsEnd(g: Game, f: Frame)
    requires !g.over && !g.paused
    ensures Apply(g, Update(f)) == CheckEnd(BeforeEnd(g, f))
  {
  }

  lemma MarchGoesDown(g: Game)
    ensures March(g).offsetY >= g.offsetY
  {
  }

  /** Kills do not change how far the rest can go. */
  lemma SameFormation(g: Game, b: Game, m: nat)
    requires MovesLeft(g, m) && b.live <= g.live
    requires b.offsetX == g.offsetX && b.offsetY == g.offsetY && b.direction == g.direction
    requires b.moveTimer == g.moveTimer && b.width == g.width && b.height == g.height
    ensures MovesLeft(b, m) && FramesLeft(b, m) == FramesLeft(g, m)
  {
  }

  /** Frames that are played, not paused, until the level ends. */
  function ActiveFrames(g: Game, events: seq<Event>): nat
    decreases |events|
  {
    if |events| == 0 then 0
    else (if events[0].Update? && !g.paused then 1 else 0) + ActiveFrames(Apply(g, events[0]), events[1..])
  }

  lemma IdleStep(g: Game, m: nat, e: Event)
    requires Inv(g) && !g.over && MovesLeft(g, m) && (!e.Update? || g.paused)
    ensures var r := Apply(g, e);
            !r.over && r.level == g.level && MovesLeft(r, m) && FramesLeft(r, m) == FramesLeft(g, m)
  {
  }

  /** What one event does to the time left. */
  lemma EventProgress(g: Game, m: nat, e: Event) returns (m': nat)
    requires Inv(g) && !g.over && MovesLeft(g, m)
    ensures var r := Apply(g, e);
            && Inv(r) && 0 < FramesLeft(g, m)
            && (Ended(g, r) ||
                (r.level == g.level && !r.over && MovesLeft(r, m')
                 && FramesLeft(r, m') + (if e.Update? && !g.paused then 1 else 0) <= FramesLeft(g, m)))
  {
    hide Apply, MovesLeft, Worth, DropsLeft;
    ApplyKeeps(g, e);
    m' := m;
    if e.Update? && !g.paused {
      m' := FrameProgress(g, m, e.frame);
    } else {
      IdleStep(g, m, e);
    }
  }

  lemma {:induction false} LevelEndsWithin(g: Game, m: nat, events: seq<Event>) returns (k: nat)
    requires Inv(g) && !g.over && MovesLeft(g, m)
    requires ActiveFrames(g, events) >= FramesLeft(g, m)
    ensures k <= |events| && Ended(g, Play(g, events[..k]))
    decreases |events|
  {
    hide Apply, MovesLeft, Inv, FramesLeft;
    var m' := EventProgress(g, m, if |events| > 0 then events[0] else PressPause);
    var e := events[0];
    var next := Apply(g, e);
    if Ended(g, next) {
      k := 1;
      assert events[..1] == [e] && [e][1..] == [];
    } else {
      var rest := LevelEndsWithin(next, m', events[1..]);
      k := rest + 1;
      assert events[..k][0] == e && events[..k][1..] == events[1..][..rest];
    }
  }

  lemma DropPaysAll(a: nat, b: nat, c: nat)
    requires a <= b
    ensures a * c <= b * c
  {
  }

  /** The explicit bound: at most 30 frames per move, a fixed number of moves per crossing, and as
      many crossings as fit above the ship. */
  function FrameBound(width: int, height: int): nat {
    var gap := height - SHIP_MARGIN - ALIEN_HEIGHT - 40;
    var drops := if gap <= 0 then 0 else (gap + ALIEN_DROP_AMOUNT - 1) / ALIEN_DROP_AMOUNT;
    ALIEN_INITIAL_DELAY * ((drops + 1) * (Crossing(width) + 1))
  }

  /** From every reachable state of a game that is not over, every sequence of events with enough
      played frames clears the level or ends the game. */
  lemma EveryLevelEnds(width: int, height: int, past: seq<Event>, future: seq<Event>) returns (k: nat)
    requires var g := Play(Start(width, height), past);
             !g.over && ActiveFrames(g, future) >= FrameBound(width, height)
    ensures k <= |future|
    ensures var g := Play(Start(width, height), past);
            Ended(g, Play(g, future[..k]))
  {
    var g := Play(Start(width, height), past);
    StartInv(width, height);
    PlayKeeps(Start(width, height), past);
    CrossingEnough(g);
    BoundCovers(g);
    k := LevelEndsWithin(g, Crossing(width), future);
  }

  lemma BoundCovers(g: Game)
    requires Inv(g)
    ensures FramesLeft(g, Crossing(g.width)) <= FrameBound(g.width, g.height)
  {
    var gap := g.height - SHIP_MARGIN - ALIEN_HEIGHT - 40;
    var drops := if gap <= 0 then 0 else (gap + ALIEN_DROP_AMOUNT - 1) / ALIEN_DROP_AMOUNT;
    var c := Crossing(g.width) + 1;
    assert DropsLeft(g) <= drops;
    DropPaysAll(DropsLeft(g), drops, c);
    assert (drops + 1) * c == drops * c + c;
  }

  // ----- kills and the march delay

  /** With all aliens alive, the delay is the initial one of the level less one for each drop. */
  ghost predicate DelayFits(g: Game) {
    && (g.offsetY - 40) % ALIEN_DROP_AMOUNT == 0
    && (|g.live| == 55 ==> g.moveDelay == DelayAfter(g.level, (g.offsetY - 40) / ALIEN_DROP_AMOUNT))
  }

  function DelayAfter(level: int, drops: int): int {
    var delay := InitialDelay(level) - drops;
    if delay < ALIEN_MIN_DELAY then ALIEN_MIN_DELAY else delay
  }

  lemma MarchKeepsDelay(g: Game)
    requires Marching(g) && DelayFits(g)
    ensures DelayFits(March(g))
  {
    if g.moveTimer + 1 >= g.moveDelay && NeedDrop(g) {
      assert March(g).offsetY - 40 == g.offsetY - 40 + ALIEN_DROP_AMOUNT;
    }
  }

  /** A bullet either changes nothing or leaves fewer than 55 aliens. */
  lemma ShootKeepsDelay(g: Game, f: Frame, b: nat)
    requires Marching(g) && b < |f.armed|
    ensures Shoot(g, f, b) == g || |Shoot(g, f, b).live| < 55
    ensures Shoot(g, f, b).offsetY == g.offsetY && Shoot(g, f, b).level == g.level
    ensures |Shoot(g, f, b).live| <= |g.live|
  {
    SubsetOfGrid(g.live);
  }

  lemma {:induction false} ShootFromKeepsDelay(g: Game, f: Frame, b: nat)
    requires Marching(g) && Balanced(g) && DelayFits(g) && b <= |f.armed|
    ensures DelayFits(ShootFrom(g, f, b))
    decreases |f.armed| - b
  {
    hide Shoot, DelayAfter;
    if b < |f.armed| {
      ShootKeeps(g, f, b);
      ShootKeepsDelay(g, f, b);
      ShootFromKeepsDelay(Shoot(g, f, b), f, b + 1);
    }
  }

  lemma ApplyKeepsDelay(g: Game, e: Event)
    requires Inv(g) && DelayFits(g) && !(g.over && e.PressFire?)
    ensures DelayFits(Apply(g, e))
  {
    hide ShootFrom, March, Strike, ReachedShip, Worth;
    if e.Update? && !g.paused && !g.over {
      MarchKeeps(g);
      MarchKeepsDelay(g);
      ShootFromKeepsDelay(March(g), e.frame, 0);
      StrikeKeeps(ShootFrom(March(g), e.frame, 0), e.frame.strikes);
    }
  }

  lemma {:induction false} PlayKeepsDelay(g: Game, events: seq<Event>)
    requires Inv(g) && DelayFits(g) && NoRestart(g, events)
    ensures DelayFits(Play(g, events)) && Inv(Play(g, events))
    decreases |events|
  {
    hide Apply, DelayFits;
    if |events| > 0 {
      ApplyKeeps(g, events[0]);
      ApplyKeepsDelay(g, events[0]);
      PlayKeepsDelay(Apply(g, events[0]), events[1..]);
    }
  }

  /** Exactly when a kill makes the formation slower instead of faster. */
  lemma KillSlowsIff(g: Game, x: Cell)
    requires Inv(g) && x in g.live
    ensures Kill(g, x).moveDelay > g.moveDelay <==> |g.live| > 1 && g.moveDelay < DelayFor(|g.live| - 1)
  {
  }

  /** In every state before a restart: the first kill of a level makes the formation slower if and
      only if the level is not the first one or the formation has dropped at least twice. */
  lemma FirstKillSlows(width: int, height: int, events: seq<Event>, x: Cell)
    requires NoRestart(Start(width, height), events)
    requires var g := Play(Start(width, height), events); x in g.live && |g.live| == 55
    ensures var g := Play(Start(width, height), events);
            && g.moveDelay == DelayAfter(g.level, (g.offsetY - 40) / ALIEN_DROP_AMOUNT)
            && OnGrid(g.live)
            && (Kill(g, x).moveDelay > g.moveDelay <==> g.level >= 2 || g.offsetY >= 64)
  {
    hide Play, Kill, Start, Balanced;
    var g := Play(Start(width, height), events);
    StartInv(width, height);
    StartDelay(width, height);
    PlayKeepsDelay(Start(width, height), events);
    KillSlowsIff(g, x);
  }

  lemma StartDelay(width: int, height: int)
    ensures DelayFits(Start(width, height))
  {
  }

  /** A frame without bullets. */
  function Idle(): (e: Event)
    ensures e.Update?
  {
    Update(Frame([], (b: nat, x: Cell) => false, 0))
  }

  /** Nothing has changed but the march, and the formation is still far above the ship. */
  ghost predicate Undisturbed(g: Game, r: Game) {
    r.live == g.live && r.level == g.level && r.width == g.width && r.height == g.height && !r.over && !r.paused
  }

  /** One frame without bullets: closer to the drop, or the drop itself. */
  lemma IdleFrame(g: Game, m: nat) returns (m': nat)
    requires Inv(g) && !g.over && !g.paused && MovesLeft(g, m)
    requires g.offsetY + 4 * ALIEN_SPACING_Y + ALIEN_DROP_AMOUNT + ALIEN_HEIGHT < g.height - SHIP_MARGIN
    ensures var r := Apply(g, Idle());
            && Inv(r) && Undisturbed(g, r)
            && if r.offsetY == g.offsetY
               then r.moveDelay == g.moveDelay && MovesLeft(r, m') && 0 <= FramesLeft(r, m') < FramesLeft(g, m)
               else r.offsetY == g.offsetY + ALIEN_DROP_AMOUNT
                    && r.moveDelay == if g.moveDelay > ALIEN_MIN_DELAY then g.moveDelay - 1 else g.moveDelay
  {
    hide FramesLeft, MovesLeft, Worth;
    m' := MarchProgress(g, m);
    IdleMarches(g);
    ApplyKeeps(g, Idle());
    FramesRemain(March(g), m');
  }

  lemma FramesRemain(g: Game, m: nat)
    requires Marching(g)
    ensures 0 <= FramesLeft(g, m)
  {
  }

  lemma IdleMarches(g: Game)
    requires Inv(g) && !g.over && !g.paused
    requires g.offsetY + 4 * ALIEN_SPACING_Y + ALIEN_DROP_AMOUNT + ALIEN_HEIGHT < g.height - SHIP_MARGIN
    ensures Apply(g, Idle()) == March(g) && Marching(March(g)) && Undisturbed(g, March(g))
  {
    hide Worth;
    MarchKeeps(g);
    TooHigh(March(g));
  }

  /** Left alone, a formation comes to its next drop. */
  lemma {:induction false} NextDrop(g: Game, m: nat) returns (events: seq<Event>)
    requires Inv(g) && !g.over && !g.paused && MovesLeft(g, m)
    requires g.offsetY + 4 * ALIEN_SPACING_Y + ALIEN_DROP_AMOUNT + ALIEN_HEIGHT < g.height - SHIP_MARGIN
    ensures var r := Play(g, events);
            && NoRestart(g, events) && Inv(r) && Undisturbed(g, r) && r.offsetY == g.offsetY + ALIEN_DROP_AMOUNT
            && r.moveDelay == if g.moveDelay > ALIEN_MIN_DELAY then g.moveDelay - 1 else g.moveDelay
    decreases FramesLeft(g, m)
  {
    hide Inv, FramesLeft, MovesLeft, Apply, Idle;
    var m' := IdleFrame(g, m);
    var next := Apply(g, Idle());
    if next.offsetY == g.offsetY {
      var rest := NextDrop(next, m');
      events := [Idle()] + rest;
      assert events[1..] == rest;
    } else {
      events := [Idle()];
      assert events[1..] == [];
    }
  }

  lemma TooHigh(g: Game)
    requires OnGrid(g.live) && g.offsetY + 4 * ALIEN_SPACING_Y + ALIEN_HEIGHT < g.height - SHIP_MARGIN
    ensures !ReachedShip(g)
  {
  }

  /** On the game's own screen, at level 1 and without a restart: after two drops the first kill
      raises the delay from 28 to 29 frames. */
  lemma TwoDropsThenKill() returns (events: seq<Event>)
    ensures var g := Play(Start(1280, 720), events);
            && NoRestart(Start(1280, 720), events)
            && g.level == 1 && g.live == Rows(ALIEN_ROWS) && g.moveDelay == 28
            && forall x :: x in g.live ==> Kill(g, x).moveDelay == 29
  {
    var g := Start(1280, 720);
    StartInv(1280, 720);
    CrossingEnough(g);
    FullFormation();
    var first := NextDrop(g, Crossing(g.width));
    var g1 := Play(g, first);
    CrossingEnough(g1);
    var second := NextDrop(g1, Crossing(g1.width));
    PlayAppend(g, first, second);
    events := first + second;
  }

  lemma {:induction false} PlayAppend(g: Game, a: seq<Event>, b: seq<Event>)
    ensures Play(g, a + b) == Play(Play(g, a), b)
    ensures NoRestart(g, a + b) <==> NoRestart(g, a) && NoRestart(Play(g, a), b)
    decreases |a|
  {
    if |a| == 0 {
      assert a + b == b;
    } else {
      assert (a + b)[1..] == a[1..] + b;
      PlayAppend(Apply(g, a[0]), a[1..], b);
    }
  }

  // ----- the code

  class InvadersGame {
    const alive: array2<bool>
    var aliveCount: int
    var offsetX: int
    var offsetY: int
    var direction: int
    var moveTimer: int
    var moveDelay: int
    var score: int
    var level: int
    var lives: int
    var over: bool
    var paused: bool
    const width: int
    const height: int
    ghost var deficit: int

    ghost predicate Valid() {
      alive.Length0 == ALIEN_ROWS && alive.Length1 == ALIEN_COLS
    }

    ghost function Live(): set<Cell>
      requires Valid()
      reads alive
    {
      set r: nat, c: nat | r < ALIEN_ROWS && c < ALIEN_COLS && alive[r, c] :: Cell(r, c)
    }

    ghost function Abs(): Game
      requires Valid()
      reads this, alive
    {
      Game(Live(), aliveCount, offsetX, offsetY, direction, moveTimer, moveDelay, score, level, lives,
           over, paused, width, height, deficit)
    }

    lemma LiveOnGrid()
      requires Valid()
      ensures OnGrid(Live())
    {
    }

    constructor (w: int, h: int)
      ensures Valid() && Abs() == Start(w, h) && fresh(alive)
    {
      alive := new bool[ALIEN_ROWS, ALIEN_COLS]((_, _) => false);
      width, height := w, h;
      score, level, lives, over, paused, deficit := 0, 1, 3, false, false, 0;
      new;
      SetUpAliens();
    }

    method SetUpAliens()
      requires Valid()
      modifies this`aliveCount, this`offsetX, this`offsetY, this`direction, this`moveTimer, this`moveDelay, alive
      ensures Valid() && Abs() == InitAliens(old(Abs()))
    {
      aliveCount := 0;
      for r := 0 to ALIEN_ROWS
        invariant aliveCount == r * ALIEN_COLS
        invariant forall i, j :: 0 <= i < r && 0 <= j < ALIEN_COLS ==> alive[i, j]
        modifies this`aliveCount, alive
      {
        for c := 0 to ALIEN_COLS
          invariant aliveCount == r * ALIEN_COLS + c
          invariant forall i, j :: 0 <= i < r && 0 <= j < ALIEN_COLS ==> alive[i, j]
          invariant forall j :: 0 <= j < c ==> alive[r, j]
          modifies this`aliveCount, alive
        {
          alive[r, c] := true;
          aliveCount := aliveCount + 1;
        }
      }
      offsetX, offsetY, direction, moveTimer := 20, 40, 1, 0;
      moveDelay := ALIEN_INITIAL_DELAY - (level - 1) * 3;
      if moveDelay < ALIEN_MIN_DELAY {
        moveDelay := ALIEN_MIN_DELAY;
      }
      assert Live() == Rows(ALIEN_ROWS);
    }

    method MoveAliens()
      requires Valid()
      modifies this`offsetX, this`offsetY, this`direction, this`moveTimer, this`moveDelay
      ensures Valid() && Abs() == March(old(Abs()))
    {
      moveTimer := moveTimer + 1;
      if moveTimer >= moveDelay {
        moveTimer := 0;
        var needDrop := CheckDrop();
        if needDrop {
          offsetY := offsetY + ALIEN_DROP_AMOUNT;
          direction := -direction;
          if moveDelay > ALIEN_MIN_DELAY {
            moveDelay := moveDelay - 1;
          }
        } else {
          offsetX := offsetX + direction * ALIEN_MOVE_SPEED;
        }
      }
    }

    method CheckDrop() returns (needDrop: bool)
      requires Valid()
      ensures needDrop <==> NeedDrop(Abs())
    {
      needDrop := false;
      for r := 0 to ALIEN_ROWS
        invariant needDrop <==> exists x :: x in Live() && x.row < r && AtEdge(Abs(), x)
      {
        for c := 0 to ALIEN_COLS
          invariant needDrop <==>
                    exists x :: x in Live() && (x.row < r || (x.row == r && x.col < c)) && AtEdge(Abs(), x)
        {
          if alive[r, c] {
            assert Cell(r, c) in Live();
            var ax := offsetX + c * ALIEN_SPACING_X;
            if direction > 0 && ax + ALIEN_WIDTH >= width - 10 {
              assert AtEdge(Abs(), Cell(r, c));
              needDrop := true;
            }
            if direction < 0 && ax <= 10 {
              assert AtEdge(Abs(), Cell(r, c));
              needDrop := true;
            }
          }
        }
      }
    }

    method KillAlien(r: nat, c: nat)
      requires Valid() && r < ALIEN_ROWS && c < ALIEN_COLS && alive[r, c]
      modifies this`aliveCount, this`score, this`moveDelay, alive
      ensures Valid() && Abs() == Kill(old(Abs()), Cell(r, c))
    {
      alive[r, c] := false;
      aliveCount := aliveCount - 1;
      score := score + AlienPoints(r);
      if aliveCount > 0 {
        var newDelay := ALIEN_INITIAL_DELAY * aliveCount / (ALIEN_ROWS * ALIEN_COLS);
        if newDelay < ALIEN_MIN_DELAY {
          newDelay := ALIEN_MIN_DELAY;
        }
        moveDelay := newDelay;
      }
      assert Live() == old(Live()) - {Cell(r, c)};
    }

    /** Bullet b destroys the first alien it touches, row by row. */
    method BulletCollision(f: Frame, b: nat)
      requires Valid() && b < |f.armed|
      modifies this`aliveCount, this`score, this`moveDelay, alive
      ensures Valid() && Abs() == Shoot(old(Abs()), f, b)
      ensures BulletEffect(old(Abs()), f, b, Abs())
    {
      hide BulletEffect, OnGrid;
      LiveOnGrid();
      ShotIsRight(Abs(), f, b);
      hide Kill, Worth, FirstHit;
      if !f.armed[b] {
        return;
      }
      ghost var first := FirstHit(Live(), f.hits, b, 0, 0);
      for r := 0 to ALIEN_ROWS
        invariant Valid() && Abs() == old(Abs())
        invariant FirstHit(Live(), f.hits, b, r, 0) == first
      {
        for c := 0 to ALIEN_COLS
          invariant Valid() && Abs() == old(Abs())
          invariant FirstHit(Live(), f.hits, b, r, c) == first
        {
          FirstHitStep(Live(), f.hits, b, r, c);
          if alive[r, c] && f.hits(b, Cell(r, c)) {
            KillAlien(r, c);
            return;
          }
        }
        FirstHitStep(Live(), f.hits, b, r, ALIEN_COLS);
      }
      FirstHitStep(Live(), f.hits, b, 0, 0);
    }

    method BulletCollisions(f: Frame)
      requires Valid()
      modifies this`aliveCount, this`score, this`moveDelay, alive
      ensures Valid() && Abs() == ShootFrom(old(Abs()), f, 0)
    {
      hide Shoot;
      ghost var start := Abs();
      for b := 0 to |f.armed|
        invariant Valid() && ShootFrom(Abs(), f, b) == ShootFrom(start, f, 0)
      {
        BulletCollision(f, b);
      }
    }

    method ShipStruck(strikes: nat)
      requires Valid()
      modifies this`lives, this`over
      ensures Valid() && Abs() == Strike(old(Abs()), strikes)
    {
      ghost var start := Abs();
      for i := 0 to strikes
        invariant Valid() && Abs() == Strike(start, i)
      {
        lives := lives - 1;
        if lives <= 0 {
          over := true;
        }
      }
    }

    /** True when a live alien is level with the ship; the rows are searched from the bottom. */
    method AliensReachedShip() returns (reached: bool)
      requires Valid()
      ensures reached <==> ReachedShip(Abs())
    {
      var r := ALIEN_ROWS;
      while r > 0
        invariant 0 <= r <= ALIEN_ROWS
        invariant forall x :: x in Live() && x.row >= r ==> !AtShip(Abs(), x)
      {
        r := r - 1;
        for c := 0 to ALIEN_COLS
          invariant forall x :: x in Live() && (x.row > r || (x.row == r && x.col < c)) ==> !AtShip(Abs(), x)
        {
          if alive[r, c] {
            var ay := offsetY + r * ALIEN_SPACING_Y + ALIEN_HEIGHT;
            if ay >= height - SHIP_MARGIN {
              assert Cell(r, c) in Live() && AtShip(Abs(), Cell(r, c));
              return true;
            }
          }
        }
      }
      return false;
    }

    method Update(f: Frame)
      requires Valid()
      modifies this, alive
      ensures Valid() && Abs() == Apply(old(Abs()), Event.Update(f))
    {
      if paused || over {
        return;
      }
      MoveAliens();
      BulletCollisions(f);
      ShipStruck(f.strikes);
      var reached := AliensReachedShip();
      if reached {
        over := true;
        return;
      }
      if aliveCount <= 0 {
        level := level + 1;
        SetUpAliens();
      }
    }

    method PressFireKey()
      requires Valid()
      modifies this
      ensures Valid() && Abs() == Apply(old(Abs()), PressFire)
    {
      if over {
        over := false;
        score, lives, level := 0, 3, 1;
        deficit := 1650 - Worth(Live(), ALIEN_ROWS);
      }
    }

    method PressPauseKey()
      requires Valid()
      modifies this`paused
      ensures Valid() && Abs() == Apply(old(Abs()), PressPause)
    {
      if !over {
        paused := !paused;
      }
    }
  }
}
