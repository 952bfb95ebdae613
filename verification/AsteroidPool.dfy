/** The asteroid game's bookkeeping: splitting in a fixed pool of slots, waves, score and lives.
    Where things are on the screen is left to the frame inputs: which bullets are in flight,
    which of them touch which asteroid, and which asteroids touch the ship. */
module AsteroidPool {

  const MAX_ASTEROIDS: nat := 24
  const ASTEROID_LARGE: nat := 3
  const ASTEROID_SMALL: nat := 1
  const RESPAWN_FRAMES: int := 120

  // ----- sums over the pool

  /** The pool holds the size of the asteroid in each slot, 0 for a free slot. */
  type Pool = seq<nat>

  /** What is counted: the score an asteroid can still bring including everything it splits
      into, the small asteroids it splits into in the end, or the hits that clear it away. */
  datatype Measure = Value | Leaves | Hits

  function Weight(m: Measure, size: nat): nat {
    match m
    case Value => if size == 0 then 0 else if size == 1 then 150 else if size == 2 then 400 else 850
    case Leaves => if size == 0 then 0 else if size == 1 then 1 else if size == 2 then 2 else 4
    case Hits => if size == 0 then 0 else if size == 1 then 1 else if size == 2 then 3 else 7
  }

  /** The points of one hit; what is left of the value goes to two children. */
  function Points(size: nat): int {
    (4 - size) * 50
  }

  function Sum(pool: Pool, m: Measure): nat {
    if |pool| == 0 then 0 else Weight(m, pool[0]) + Sum(pool[1..], m)
  }

  lemma {:induction false} SumUpdate(pool: Pool, m: Measure, a: nat, size: nat)
    requires a < |pool|
    ensures Sum(pool[a := size], m) == Sum(pool, m) - Weight(m, pool[a]) + Weight(m, size)
  {
    if a == 0 {
      assert pool[a := size][1..] == pool[1..];
    } else {
      SumUpdate(pool[1..], m, a - 1, size);
      assert pool[a := size][1..] == pool[1..][a - 1 := size];
    }
  }

  predicate Empty(pool: Pool) {
    forall i :: 0 <= i < |pool| ==> pool[i] == 0
  }

  lemma {:induction false} SumOfEmpty(pool: Pool, m: Measure)
    requires Empty(pool)
    ensures Sum(pool, m) == 0
  {
    if |pool| > 0 {
      SumOfEmpty(pool[1..], m);
    }
  }

  /** A pool without a free slot has at least one leaf per slot. */
  lemma {:induction false} FullPoolLeaves(pool: Pool, a: nat)
    requires a < |pool| && forall i :: 0 <= i < |pool| ==> 0 < pool[i]
    ensures Sum(pool, Leaves) >= |pool| - 1 + Weight(Leaves, pool[a])
  {
    if |pool| > 1 {
      FullPoolLeaves(pool[1..], if a == 0 then 0 else a - 1);
    }
  }

  // ----- game states

  datatype Game = Game(pool: Pool, score: int, wave: nat, lives: int, gameOver: bool, paused: bool,
                       shipAlive: bool, respawnTimer: int,
                       spawned: nat,  // large asteroids spawned in this game
                       lost: nat)     // total value of the children that found no slot

  /** What one frame adds from outside: bullets in flight, and who touches whom. */
  datatype Frame = Frame(armed: seq<bool>, hits: (nat, nat) -> bool, touches: nat -> bool)

  datatype Event = Update(frame: Frame) | PressRestart | PressPause

  function FirstFree(pool: Pool, n: nat): (k: nat)
    requires n <= |pool|
    ensures n <= k <= |pool|
    ensures k < |pool| ==> pool[k] == 0
    ensures forall i :: n <= i < k ==> pool[i] != 0
    decreases |pool| - n
  {
    if n == |pool| || pool[n] == 0 then n else FirstFree(pool, n + 1)
  }

  /** A new asteroid in the first free slot; without one it is silently dropped. */
  function Place(pool: Pool, size: nat): (r: Pool)
    ensures |r| == |pool|
    ensures forall i :: 0 <= i < |r| ==> r[i] == pool[i] || (pool[i] == 0 && r[i] == size)
  {
    var k := FirstFree(pool, 0);
    if k < |pool| then pool[k := size] else pool
  }

  predicate HasFree(pool: Pool) {
    exists i :: 0 <= i < |pool| && pool[i] == 0
  }

  /** The pool after the asteroid in slot a is destroyed: its slot is free when its two
      children look for theirs. */
  function Split(pool: Pool, a: nat): (r: Pool)
    requires a < |pool|
    ensures |r| == |pool|
    ensures forall i :: 0 <= i < |r| ==> r[i] <= pool[i] || r[i] < pool[a]
  {
    var cleared := pool[a := 0];
    if pool[a] > ASTEROID_SMALL then Place(Place(cleared, pool[a] - 1), pool[a] - 1) else cleared
  }

  /** The value of the child that finds no slot. */
  function LostBySplit(pool: Pool, a: nat): nat
    requires a < |pool|
  {
    if pool[a] <= ASTEROID_SMALL || HasFree(Place(pool[a := 0], pool[a] - 1)) then 0
    else Weight(Value, pool[a] - 1)
  }

  /** A bullet destroys the asteroid in slot a. */
  function Hit(g: Game, a: nat): (r: Game)
    requires a < |g.pool|
  {
    g.(score := g.score + Points(g.pool[a]), pool := Split(g.pool, a), lost := g.lost + LostBySplit(g.pool, a))
  }

  function FirstHit(pool: Pool, hits: (nat, nat) -> bool, b: nat, a: nat): (k: nat)
    requires a <= |pool|
    ensures a <= k <= |pool|
    ensures k < |pool| ==> pool[k] != 0 && hits(b, k)
    ensures forall i :: a <= i < k ==> pool[i] == 0 || !hits(b, i)
    decreases |pool| - a
  {
    if a == |pool| || (pool[a] != 0 && hits(b, a)) then a else FirstHit(pool, hits, b, a + 1)
  }

  ghost predicate Sized(g: Game) {
    |g.pool| == MAX_ASTEROIDS && forall i :: 0 <= i < |g.pool| ==> g.pool[i] <= ASTEROID_LARGE
  }

  /** Bullet b in flight destroys the first asteroid it touches, if any. */
  function Shoot(g: Game, f: Frame, b: nat): (r: Game)
    requires b < |f.armed| && Sized(g)
    ensures Sized(r)
  {
    var a := FirstHit(g.pool, f.hits, b, 0);
    if f.armed[b] && a < |g.pool| then Hit(g, a) else g
  }

  /** The effect of bullet b and all later ones. */
  function ShootFrom(g: Game, f: Frame, b: nat): (r: Game)
    requires b <= |f.armed| && Sized(g)
    ensures Sized(r)
    decreases |f.armed| - b
  {
    if b == |f.armed| then g else ShootFrom(Shoot(g, f, b), f, b + 1)
  }

  function Respawn(g: Game): (r: Game)
    ensures r.pool == g.pool
  {
    if g.shipAlive then g
    else g.(respawnTimer := g.respawnTimer - 1, shipAlive := g.respawnTimer - 1 <= 0)
  }

  predicate ShipTouched(g: Game, f: Frame) {
    exists a :: 0 <= a < |g.pool| && g.pool[a] != 0 && f.touches(a)
  }

  function ShipCollision(g: Game, f: Frame): (r: Game)
    ensures r.pool == g.pool
  {
    if g.shipAlive && ShipTouched(g, f) then
      g.(shipAlive := false, respawnTimer := RESPAWN_FRAMES, lives := g.lives - 1,
         gameOver := g.gameOver || g.lives - 1 <= 0)
    else g
  }

  function WaveSize(wave: nat): nat {
    if 3 + wave > MAX_ASTEROIDS / 2 then MAX_ASTEROIDS / 2 else 3 + wave
  }

  function PlaceMany(pool: Pool, count: nat): (r: Pool)
    ensures |r| == |pool|
  {
    if count == 0 then pool else Place(PlaceMany(pool, count - 1), ASTEROID_LARGE)
  }

  lemma {:induction false} PlaceManySized(pool: Pool, count: nat)
    requires forall i :: 0 <= i < |pool| ==> pool[i] <= ASTEROID_LARGE
    ensures forall i :: 0 <= i < |pool| ==> PlaceMany(pool, count)[i] <= ASTEROID_LARGE
  {
    if count > 0 {
      PlaceManySized(pool, count - 1);
      var before := PlaceMany(pool, count - 1);
      assert forall i :: 0 <= i < |pool| ==> Place(before, ASTEROID_LARGE)[i] <= ASTEROID_LARGE;
    }
  }

  function SpawnWave(g: Game): (r: Game)
    requires Sized(g)
    ensures Sized(r)
  {
    var count := WaveSize(g.wave + 1);
    PlaceManySized(g.pool, count);
    g.(wave := g.wave + 1, pool := PlaceMany(g.pool, count), spawned := g.spawned + count)
  }

  function CheckWave(g: Game): (r: Game)
    requires Sized(g)
    ensures Sized(r)
  {
    if Empty(g.pool) then SpawnWave(g) else g
  }

  function Apply(g: Game, e: Event): (r: Game)
    requires Sized(g)
    ensures Sized(r)
  {
    match e
    case Update(f) =>
      if g.paused || g.gameOver then g
      else CheckWave(ShipCollision(ShootFrom(Respawn(g), f, 0), f))
    case PressRestart =>
      if g.gameOver then
        g.(gameOver := false, score := 0, lives := 3, wave := 0, shipAlive := true,
           pool := seq(|g.pool|, _ => 0), spawned := 0, lost := 0)
      else g
    case PressPause => g.(paused := !g.paused)
  }

  function Start(): (g: Game)
    ensures Sized(g)
  {
    SpawnWave(Blank())
  }

  function Blank(): Game {
    Game(seq(MAX_ASTEROIDS, _ => 0), 0, 0, 3, false, false, true, 0, 0, 0)
  }

  // ----- conservation

  /** Large asteroids spawned by the waves up to this one. */
  function SpawnedBy(wave: nat): nat {
    if wave == 0 then 0 else SpawnedBy(wave - 1) + WaveSize(wave)
  }

  /** Points are only moved: from asteroids to the score, or to the children that found no slot,
      and none of those exists before the fourth wave. */
  ghost predicate Balanced(g: Game) {
    && Sized(g)
    && g.score + Sum(g.pool, Value) + g.lost == Weight(Value, ASTEROID_LARGE) * g.spawned
    && (g.wave <= 3 ==> g.lost == 0 && Sum(g.pool, Leaves) <= MAX_ASTEROIDS)
  }

  ghost predicate Inv(g: Game) {
    Balanced(g) && g.spawned == SpawnedBy(g.wave) && (g.wave == 0 ==> Empty(g.pool))
  }

  lemma PlaceSum(pool: Pool, size: nat, m: Measure)
    ensures Sum(Place(pool, size), m) == Sum(pool, m) + if HasFree(pool) then Weight(m, size) else 0
  {
    var k := FirstFree(pool, 0);
    if k < |pool| {
      SumUpdate(pool, m, k, size);
    }
  }

  /** Exactly when a child is lost: the parent splits and every slot was taken. */
  lemma ChildLostIffFull(pool: Pool, a: nat)
    requires a < |pool| && 0 < pool[a]
    ensures LostBySplit(pool, a) > 0 <==> pool[a] > ASTEROID_SMALL && !HasFree(pool)
  {
    if pool[a] > ASTEROID_SMALL {
      var cleared := pool[a := 0];
      var k := FirstFree(cleared, 0);
      var placed := Place(cleared, pool[a] - 1);
      assert placed == cleared[k := pool[a] - 1] && cleared[a] == 0;
      if i :| 0 <= i < |pool| && pool[i] == 0 {
        assert placed[if k == a then i else a] == 0;
      } else {
        assert forall i :: 0 <= i < |placed| ==> placed[i] != 0;
      }
    }
  }

  lemma FreedSlot(pool: Pool, a: nat)
    requires a < |pool|
    ensures HasFree(pool[a := 0])
  {
    assert pool[a := 0][a] == 0;
  }

  /** What destroying an asteroid does to a sum: itself out, its children in. */
  lemma SplitSum(pool: Pool, a: nat, m: Measure)
    requires a < |pool| && 0 < pool[a] <= ASTEROID_LARGE
    ensures Sum(Split(pool, a), m) == Sum(pool, m) - Weight(m, pool[a])
            + (if pool[a] == ASTEROID_SMALL then 0
               else if LostBySplit(pool, a) > 0 then Weight(m, pool[a] - 1) else 2 * Weight(m, pool[a] - 1))
  {
    hide Place, HasFree, Sum;
    var size := pool[a];
    var cleared := pool[a := 0];
    SumUpdate(pool, m, a, 0);
    if size > ASTEROID_SMALL {
      FreedSlot(pool, a);
      PlaceTwice(cleared, size - 1, m);
    }
  }

  lemma PlaceTwice(pool: Pool, size: nat, m: Measure)
    requires HasFree(pool)
    ensures Sum(Place(Place(pool, size), size), m) ==
            Sum(pool, m) + (if HasFree(Place(pool, size)) then 2 else 1) * Weight(m, size)
  {
    hide Place;
    PlaceSum(pool, size, m);
    PlaceSum(Place(pool, size), size, m);
  }

  /** One hit conserves score plus remaining value plus lost value, never adds leaves, always
      shortens the wave, and loses a child only when the pool has more leaves than slots. */
  lemma HitConserves(pool: Pool, a: nat)
    requires a < |pool| && 0 < pool[a] <= ASTEROID_LARGE
    ensures Points(pool[a]) + Sum(Split(pool, a), Value) + LostBySplit(pool, a) == Sum(pool, Value)
    ensures Sum(Split(pool, a), Leaves) <= Sum(pool, Leaves)
    ensures Sum(Split(pool, a), Hits) < Sum(pool, Hits)
    ensures LostBySplit(pool, a) > 0 ==> Sum(pool, Leaves) > |pool|
  {
    SplitSum(pool, a, Value);
    SplitSum(pool, a, Leaves);
    SplitSum(pool, a, Hits);
    ChildLostIffFull(pool, a);
    if !HasFree(pool) {
      FullPoolLeaves(pool, a);
    }
  }

  /** Only pool, score and lost value may differ, and an empty pool stays as it is. */
  ghost predicate ShotAt(g: Game, r: Game) {
    r.wave == g.wave && r.spawned == g.spawned && (Empty(g.pool) ==> r.pool == g.pool)
  }

  lemma ShootKeeps(g: Game, f: Frame, b: nat)
    requires Balanced(g) && b < |f.armed|
    ensures Balanced(Shoot(g, f, b)) && ShotAt(g, Shoot(g, f, b))
  {
    var a := FirstHit(g.pool, f.hits, b, 0);
    if f.armed[b] && a < |g.pool| {
      HitConserves(g.pool, a);
    }
  }

  lemma {:induction false} ShootFromKeeps(g: Game, f: Frame, b: nat)
    requires Balanced(g) && b <= |f.armed|
    ensures Balanced(ShootFrom(g, f, b)) && ShotAt(g, ShootFrom(g, f, b))
    decreases |f.armed| - b
  {
    hide Shoot;
    if b < |f.armed| {
      ShootKeeps(g, f, b);
      ShootFromKeeps(Shoot(g, f, b), f, b + 1);
    }
  }

  lemma {:induction false} PlaceManySum(pool: Pool, count: nat, m: Measure)
    requires Empty(pool) && count <= |pool|
    ensures var r := PlaceMany(pool, count);
            && Sum(r, m) == Weight(m, ASTEROID_LARGE) * count
            && forall i :: 0 <= i < |r| ==> r[i] == if i < count then ASTEROID_LARGE else 0
  {
    hide Place, HasFree, Sum;
    if count == 0 {
      SumOfEmpty(pool, m);
    } else {
      PlaceManySum(pool, count - 1, m);
      var r := PlaceMany(pool, count - 1);
      PlaceAt(r, ASTEROID_LARGE, count - 1);
      PlaceSum(r, ASTEROID_LARGE, m);
    }
  }

  lemma PlaceAt(pool: Pool, size: nat, k: nat)
    requires k < |pool| && pool[k] == 0 && forall i :: 0 <= i < k ==> pool[i] != 0
    ensures HasFree(pool) && Place(pool, size) == pool[k := size]
  {
  }

  lemma NewWaveSums(g: Game)
    requires Sized(g) && Empty(g.pool)
    ensures var r, count := SpawnWave(g), WaveSize(g.wave + 1);
            && Sum(r.pool, Value) == 850 * count
            && Sum(r.pool, Leaves) == 4 * count
            && (g.wave < 3 ==> 4 * count <= MAX_ASTEROIDS)
            && forall i :: 0 <= i < |r.pool| ==> r.pool[i] == if i < count then ASTEROID_LARGE else 0
  {
    PlaceManySum(g.pool, WaveSize(g.wave + 1), Value);
    PlaceManySum(g.pool, WaveSize(g.wave + 1), Leaves);
  }

  lemma CheckWaveKeeps(g: Game)
    requires Inv(g)
    ensures Inv(CheckWave(g))
  {
    if Empty(g.pool) {
      SumOfEmpty(g.pool, Value);
      NewWaveSums(g);
    }
  }

  lemma StartConserves()
    ensures Inv(Start())
  {
    hide SpawnWave, Sum;
    SumOfEmpty(Blank().pool, Value);
    SumOfEmpty(Blank().pool, Leaves);
    CheckWaveKeeps(Blank());
  }

  lemma ApplyKeeps(g: Game, e: Event)
    requires Inv(g)
    ensures Inv(Apply(g, e))
  {
    match e
    case Update(f) =>
      if !g.paused && !g.gameOver {
        ShootFromKeeps(Respawn(g), f, 0);
        CheckWaveKeeps(ShipCollision(ShootFrom(Respawn(g), f, 0), f));
      }
    case PressRestart =>
      if g.gameOver {
        SumOfEmpty(Apply(g, e).pool, Value);
        SumOfEmpty(Apply(g, e).pool, Leaves);
      }
    case PressPause =>
  }

  function Play(g: Game, events: seq<Event>): (r: Game)
    requires Sized(g)
    ensures Sized(r)
    decreases |events|
  {
    if |events| == 0 then g else Play(Apply(g, events[0]), events[1..])
  }

  lemma {:induction false} PlayKeeps(g: Game, events: seq<Event>)
    requires Inv(g)
    ensures Inv(Play(g, events))
    decreases |events|
  {
    if |events| > 0 {
      ApplyKeeps(g, events[0]);
      PlayKeeps(Apply(g, events[0]), events[1..]);
    }
  }

  /** In every reachable state the score and the value still flying never exceed 850 points per
      large asteroid of this game; what is missing is the value of the lost children, and up to
      the third wave nothing is missing. */
  lemma ScoreIsConserved(events: seq<Event>)
    ensures var g := Play(Start(), events);
            && g.spawned == SpawnedBy(g.wave)
            && g.score + Sum(g.pool, Value) == 850 * g.spawned - g.lost
            && (g.wave <= 3 ==> g.lost == 0)
  {
    hide Start, Play, Sum, SpawnedBy;
    StartConserves();
    PlayKeeps(Start(), events);
  }

  // ----- a frame in full

  /** The pool after the asteroid in slot a is destroyed: a small one just goes, of a larger one the
      two children take the first free slots, its own among them, or one child its own if the
      pool was full. */
  ghost predicate Splits(pool: Pool, a: nat, r: Pool)
    requires a < |pool|
  {
    var cleared := pool[a := 0];
    && (pool[a] == 1 ==> r == cleared)
    && (pool[a] > 1 ==>
          && (forall i: nat, j: nat :: FirstTwoFree(cleared, i, j) ==> r == cleared[i := pool[a] - 1][j := pool[a] - 1])
          && (OnlyFree(cleared, a) ==> r == cleared[a := pool[a] - 1]))
  }

  ghost predicate FirstTwoFree(pool: Pool, i: nat, j: nat) {
    && i < j < |pool| && pool[i] == 0 && pool[j] == 0
    && forall k :: 0 <= k < j && k != i ==> pool[k] != 0
  }

  ghost predicate OnlyFree(pool: Pool, a: nat) {
    && a < |pool| && pool[a] == 0
    && forall k :: 0 <= k < |pool| && k != a ==> pool[k] != 0
  }

  /** Only a bullet in flight that touches an active asteroid does anything: it destroys the first
      one it touches, for 150, 100 or 50 points by size. */
  ghost predicate BulletEffect(g: Game, f: Frame, b: nat, r: Game)
    requires b < |f.armed|
  {
    && (!f.armed[b] || (forall a :: 0 <= a < |g.pool| ==> g.pool[a] == 0 || !f.hits(b, a)) ==> r == g)
    && forall a :: 0 <= a < |g.pool| && f.armed[b] && g.pool[a] != 0 && f.hits(b, a)
                   && (forall i :: 0 <= i < a ==> g.pool[i] == 0 || !f.hits(b, i))
         ==>
           && r == g.(score := r.score, pool := r.pool, lost := r.lost)
           && r.score == g.score + (if g.pool[a] == 1 then 150 else if g.pool[a] == 2 then 100 else 50)
           && Splits(g.pool, a, r.pool)
  }

  lemma SplitIsRight(pool: Pool, a: nat)
    requires a < |pool| && pool[a] > 0
    ensures Splits(pool, a, Split(pool, a))
  {
    hide Place, FirstTwoFree, OnlyFree;
    if pool[a] > 1 {
      var cleared, size := pool[a := 0], pool[a] - 1;
      forall i: nat, j: nat | FirstTwoFree(cleared, i, j)
        ensures i < j < |pool| && Split(pool, a) == cleared[i := size][j := size]
      {
        TwoPlaces(cleared, size, i, j);
      }
      if OnlyFree(cleared, a) {
        OnePlace(cleared, size, a);
      }
    }
  }

  lemma TwoPlaces(pool: Pool, size: nat, i: nat, j: nat)
    requires size > 0 && FirstTwoFree(pool, i, j)
    ensures i < j < |pool|
    ensures Place(Place(pool, size), size) == pool[i := size][j := size]
  {
    hide Place, HasFree;
    PlaceAt(pool, size, i);
    PlaceAt(pool[i := size], size, j);
  }

  lemma OnePlace(pool: Pool, size: nat, a: nat)
    requires size > 0 && OnlyFree(pool, a)
    ensures a < |pool| && Place(Place(pool, size), size) == pool[a := size]
  {
    hide Place, HasFree;
    PlaceAt(pool, size, a);
    NoPlace(pool[a := size], size);
  }

  lemma NoPlace(pool: Pool, size: nat)
    requires forall i :: 0 <= i < |pool| ==> pool[i] != 0
    ensures Place(pool, size) == pool
  {
  }

  lemma ShotIsRight(g: Game, f: Frame, b: nat)
    requires Sized(g) && b < |f.armed|
    ensures BulletEffect(g, f, b, Shoot(g, f, b))
  {
    hide Split, Splits, LostBySplit;
    var k := FirstHit(g.pool, f.hits, b, 0);
    if f.armed[b] && k < |g.pool| {
      SplitIsRight(g.pool, k);
    }
  }

  lemma ShotTrace(g: Game, f: Frame) returns (t: seq<Game>)
    requires Sized(g)
    ensures |t| == |f.armed| + 1 && t[0] == g && t[|f.armed|] == ShootFrom(g, f, 0)
    ensures forall b :: 0 <= b < |f.armed| ==> BulletEffect(t[b], f, b, t[b + 1])
  {
    hide BulletEffect, Shoot;
    t := [g];
    for n := 0 to |f.armed|
      invariant |t| == n + 1 && t[0] == g && Sized(t[n])
      invariant ShootFrom(t[n], f, n) == ShootFrom(g, f, 0)
      invariant forall b :: 0 <= b < n ==> BulletEffect(t[b], f, b, t[b + 1])
    {
      ShotIsRight(t[n], f, n);
      t := t + [Shoot(t[n], f, n)];
    }
  }

  /** A played frame: a missing ship's timer runs down, every bullet acts on what the earlier ones
      left, a touched ship is lost, and an empty pool brings the next wave. */
  lemma FrameTrace(g: Game, f: Frame) returns (t: seq<Game>)
    requires Sized(g) && !g.paused && !g.gameOver
    ensures |t| == |f.armed| + 1
    ensures t[0] == if g.shipAlive then g
                    else g.(respawnTimer := g.respawnTimer - 1, shipAlive := g.respawnTimer <= 1)
    ensures forall b :: 0 <= b < |f.armed| ==> BulletEffect(t[b], f, b, t[b + 1])
    ensures var l, r := t[|f.armed|], Apply(g, Update(f));
            var struck := l.shipAlive && exists a :: 0 <= a < |l.pool| && l.pool[a] != 0 && f.touches(a);
            && r.score == l.score && r.paused == g.paused
            && r.lives == (if struck then l.lives - 1 else l.lives)
            && r.shipAlive == (l.shipAlive && !struck)
            && r.respawnTimer == (if struck then 120 else l.respawnTimer)
            && r.gameOver == (struck && l.lives <= 1)
            && (if exists a :: 0 <= a < |l.pool| && l.pool[a] != 0 then r.wave == l.wave && r.pool == l.pool
                else NewWave(l.wave, r))
  {
    hide BulletEffect, ShootFrom;
    ShootFromSpares(Respawn(g), f, 0);
    t := ShotTrace(Respawn(g), f);
    var l := t[|f.armed|];
    assert l.pool == ShipCollision(l, f).pool;
    if Empty(l.pool) {
      WaveIsRight(ShipCollision(l, f));
    }
  }

  /** The next wave: three large asteroids and one more for each wave, at most twelve, in the first
      of 24 slots. */
  ghost predicate NewWave(wave: nat, r: Game) {
    && r.wave == wave + 1 && |r.pool| == 24
    && forall i :: 0 <= i < 24 ==> r.pool[i] == if i < 12 && i < 4 + wave then 3 else 0
  }

  lemma WaveIsRight(g: Game)
    requires Sized(g) && Empty(g.pool)
    ensures NewWave(g.wave, SpawnWave(g))
  {
    hide Sum, PlaceMany;
    NewWaveSums(g);
  }

  /** The keys, and frames in which nothing happens. */
  lemma KeysAndRest(g: Game, f: Frame)
    requires Sized(g)
    ensures Apply(g, PressPause) == g.(paused := !g.paused)
    ensures g.paused || g.gameOver ==> Apply(g, Update(f)) == g
    ensures !g.gameOver ==> Apply(g, PressRestart) == g
    ensures g.gameOver ==>
              var r := Apply(g, PressRestart);
              && r.score == 0 && r.lives == 3 && r.wave == 0 && r.shipAlive && !r.gameOver && r.paused == g.paused
              && |r.pool| == 24 && forall i :: 0 <= i < 24 ==> r.pool[i] == 0
  {
  }

  /** A new game. */
  lemma StartIsRight()
    ensures Start().score == 0 && Start().lives == 3 && Start().shipAlive && !Start().gameOver && !Start().paused
    ensures NewWave(0, Start())
  {
    hide PlaceMany;
    WaveIsRight(Blank());
  }

  // ----- lives

  ghost predicate LivesFit(g: Game) {
    && 0 <= g.lives <= 3 && (g.gameOver <==> g.lives == 0)
    && (!g.shipAlive ==> 0 < g.respawnTimer <= RESPAWN_FRAMES)
  }

  lemma {:induction false} ShootFromSpares(g: Game, f: Frame, b: nat)
    requires b <= |f.armed| && Sized(g)
    ensures var r := ShootFrom(g, f, b);
            && r.lives == g.lives && r.gameOver == g.gameOver && r.paused == g.paused
            && r.shipAlive == g.shipAlive && r.respawnTimer == g.respawnTimer
    decreases |f.armed| - b
  {
    hide Split, LostBySplit;
    if b < |f.armed| {
      ShootFromSpares(Shoot(g, f, b), f, b + 1);
    }
  }

  lemma LivesStep(g: Game, e: Event)
    requires Sized(g) && LivesFit(g)
    ensures LivesFit(Apply(g, e))
    ensures Apply(g, e).lives < g.lives ==> Apply(g, e).lives == g.lives - 1 && !Apply(g, e).shipAlive
  {
    hide ShootFrom, SpawnWave, ShipTouched;
    if e.Update? && !g.paused && !g.gameOver {
      ShootFromSpares(Respawn(g), e.frame, 0);
      CheckWaveSpares(ShipCollision(ShootFrom(Respawn(g), e.frame, 0), e.frame));
    }
  }

  lemma CheckWaveSpares(g: Game)
    requires Sized(g)
    ensures var r := CheckWave(g);
            && r.lives == g.lives && r.gameOver == g.gameOver
            && r.shipAlive == g.shipAlive && r.respawnTimer == g.respawnTimer
  {
  }

  /** In every reachable state the game is over exactly when no life is left, and a ship that is
      gone has at most 120 frames to wait. */
  lemma {:induction false} LivesKept(g: Game, events: seq<Event>)
    requires Sized(g) && LivesFit(g)
    ensures LivesFit(Play(g, events))
    decreases |events|
  {
    hide Apply;
    if |events| > 0 {
      LivesStep(g, events[0]);
      LivesKept(Apply(g, events[0]), events[1..]);
    }
  }

  /** In particular in every run of the game. */
  lemma LivesFromStart(events: seq<Event>)
    ensures LivesFit(Play(Start(), events))
  {
    hide Play;
    StartLives();
    LivesKept(Start(), events);
  }

  lemma StartLives()
    ensures LivesFit(Start()) && Start().lives == 3
  {
    hide PlaceMany;
  }

  /** Frames that are played, neither paused nor after the end. */
  function PlayedFrames(g: Game, events: seq<Event>): nat
    requires Sized(g)
    decreases |events|
  {
    if |events| == 0 then 0
    else (if events[0].Update? && !g.paused && !g.gameOver then 1 else 0) + PlayedFrames(Apply(g, events[0]), events[1..])
  }

  /** A played frame brings a missing ship closer, brings it back, or brings it back and destroys it. */
  lemma RespawnStep(g: Game, e: Event)
    requires Sized(g) && LivesFit(g) && !g.shipAlive && !g.gameOver
    ensures var r := Apply(g, e);
            || r.shipAlive || r.lives < g.lives
            || (!r.gameOver && r.lives == g.lives
                && r.respawnTimer == g.respawnTimer - if e.Update? && !g.paused then 1 else 0)
  {
    hide ShootFrom, SpawnWave, ShipTouched;
    if e.Update? && !g.paused {
      ShootFromSpares(Respawn(g), e.frame, 0);
      CheckWaveSpares(ShipCollision(ShootFrom(Respawn(g), e.frame, 0), e.frame));
    }
  }

  /** A destroyed ship comes back: after as many played frames as the timer says, it is there or
      has been there and cost a further life. */
  lemma {:induction false} ShipReturns(g: Game, events: seq<Event>) returns (k: nat)
    requires Sized(g) && LivesFit(g) && !g.shipAlive && !g.gameOver
    requires PlayedFrames(g, events) >= g.respawnTimer
    ensures k <= |events|
    ensures Play(g, events[..k]).shipAlive || Play(g, events[..k]).lives < g.lives
    decreases |events|
  {
    hide Apply;
    var e := events[0];
    var next := Apply(g, e);
    LivesStep(g, e);
    RespawnStep(g, e);
    if next.shipAlive || next.lives < g.lives {
      k := 1;
      assert events[..1] == [e] && [e][1..] == [];
    } else {
      var rest := ShipReturns(next, events[1..]);
      k := rest + 1;
      assert events[..k][0] == e && events[..k][1..] == events[1..][..rest];
    }
  }

  /** From every reachable state without a ship it is back within 120 played frames. */
  lemma ShipReturnsInTime(past: seq<Event>, future: seq<Event>) returns (k: nat)
    ensures var g := Play(Start(), past);
            !g.shipAlive && !g.gameOver && PlayedFrames(g, future) >= RESPAWN_FRAMES ==>
              k <= |future| && (Play(g, future[..k]).shipAlive || Play(g, future[..k]).lives < g.lives)
  {
    hide Play, Start, PlayedFrames;
    var g := Play(Start(), past);
    LivesFromStart(past);
    k := 0;
    if !g.shipAlive && !g.gameOver && PlayedFrames(g, future) >= RESPAWN_FRAMES {
      k := ShipReturns(g, future);
    }
  }

  // ----- from the fourth wave on value can be lost

  /** Nothing but the next bullet can happen. */
  ghost predicate Flying(g: Game) {
    Inv(g) && !g.paused && !g.gameOver && g.shipAlive
  }

  /** A frame in which one bullet touches the asteroids that aim accepts. */
  function OneBullet(aim: nat -> bool): Event {
    Update(Frame([true], (b: nat, a: nat) => aim(a), (a: nat) => false))
  }

  lemma OneBulletHits(g: Game, aim: nat -> bool, a: nat)
    requires Flying(g) && a < |g.pool| && g.pool[a] != 0 && aim(a)
    requires forall i :: 0 <= i < a ==> g.pool[i] == 0 || !aim(i)
    ensures Apply(g, OneBullet(aim)) == CheckWave(Hit(g, a))
    ensures Flying(Apply(g, OneBullet(aim)))
  {
    var f := OneBullet(aim).frame;
    assert FirstHit(g.pool, f.hits, 0, 0) == a;
    assert ShootFrom(g, f, 0) == ShootFrom(Hit(g, a), f, 1) == Hit(g, a);
    ApplyKeeps(g, OneBullet(aim));
  }

  lemma FirstActive(pool: Pool) returns (a: nat)
    requires !Empty(pool)
    ensures a < |pool| && pool[a] != 0 && forall i :: 0 <= i < a ==> pool[i] == 0
  {
    a := 0;
    while pool[a] == 0
      invariant a < |pool| && forall i :: 0 <= i < a ==> pool[i] == 0
      decreases |pool| - a
    {
      a := a + 1;
    }
  }

  /** A wave just spawned. */
  ghost predicate Fresh(g: Game) {
    !Empty(g.pool) && Sum(g.pool, Leaves) == 4 * WaveSize(g.wave)
  }

  /** A bullet that hits something either shortens the wave or starts the next one. */
  lemma ShootFirst(g: Game)
    requires Flying(g) && !Empty(g.pool)
    ensures var r := Apply(g, OneBullet(_ => true));
            && Flying(r) && r.lost >= g.lost
            && if r.wave == g.wave then !Empty(r.pool) && Sum(r.pool, Hits) < Sum(g.pool, Hits)
               else r.wave == g.wave + 1 && Fresh(r)
  {
    var a := FirstActive(g.pool);
    OneBulletHits(g, _ => true, a);
    HitConserves(g.pool, a);
    if Empty(Hit(g, a).pool) {
      NewWaveSums(Hit(g, a));
      assert Apply(g, OneBullet(_ => true)).pool[0] == ASTEROID_LARGE;
    }
  }

  /** Every wave can be shot down: the next one follows, and lost value stays lost. */
  lemma {:induction false} ClearWave(g: Game) returns (events: seq<Event>)
    requires Flying(g) && !Empty(g.pool)
    ensures var r := Play(g, events); Flying(r) && Fresh(r) && r.wave == g.wave + 1 && r.lost >= g.lost
    decreases Sum(g.pool, Hits)
  {
    ShootFirst(g);
    var e := OneBullet(_ => true);
    var next := Apply(g, e);
    if next.wave != g.wave {
      events := [e];
      assert events[1..] == [];
    } else {
      var rest := ClearWave(next);
      events := [e] + rest;
      assert events[1..] == rest;
    }
  }

  lemma {:induction false} SomeSplits(pool: Pool) returns (a: nat)
    requires Sum(pool, Leaves) > |pool|
    ensures a < |pool| && pool[a] > ASTEROID_SMALL
  {
    if pool[0] > ASTEROID_SMALL {
      a := 0;
    } else {
      var rest := SomeSplits(pool[1..]);
      a := rest + 1;
    }
  }

  /** With more leaves than slots, hitting only what still splits fills the pool and loses a child. */
  lemma {:induction false} LoseChild(g: Game) returns (events: seq<Event>)
    requires Flying(g) && Sum(g.pool, Leaves) > |g.pool|
    ensures var r := Play(g, events); Flying(r) && !Empty(r.pool) && r.wave == g.wave && r.lost > g.lost
    decreases Sum(g.pool, Hits)
  {
    hide LostBySplit, Split;
    var a := SomeSplits(g.pool);
    var e := OneBullet((i: nat) => i == a);
    OneBulletHits(g, (i: nat) => i == a, a);
    HitConserves(g.pool, a);
    SplitSum(g.pool, a, Leaves);
    ChildLostIffFull(g.pool, a);
    var r := Hit(g, a);
    if Empty(r.pool) {
      SumOfEmpty(r.pool, Leaves);
    }
    if LostBySplit(g.pool, a) > 0 {
      events := [e];
      assert events[1..] == [];
    } else {
      var rest := LoseChild(r);
      events := [e] + rest;
      assert events[1..] == rest;
    }
  }

  lemma {:induction false} PlayAppend(g: Game, a: seq<Event>, b: seq<Event>)
    requires Sized(g)
    ensures Play(g, a + b) == Play(Play(g, a), b)
    decreases |a|
  {
    if |a| == 0 {
      assert a + b == b;
    } else {
      assert (a + b)[1..] == a[1..] + b;
      PlayAppend(Apply(g, a[0]), a[1..], b);
    }
  }

  lemma NewWaveIsFresh(g: Game)
    requires Sized(g) && Empty(g.pool)
    ensures var r := SpawnWave(g);
            && Fresh(r) && r.wave == g.wave + 1
            && r.paused == g.paused && r.gameOver == g.gameOver && r.shipAlive == g.shipAlive
  {
    hide Sum, PlaceMany;
    NewWaveSums(g);
    assert SpawnWave(g).pool[0] == ASTEROID_LARGE;
  }

  lemma StartsFlying()
    ensures Flying(Start()) && Fresh(Start()) && Start().wave == 1
  {
    hide SpawnWave, Sum, Inv, Fresh;
    StartConserves();
    NewWaveIsFresh(Blank());
  }

  /** From the fourth wave on there are games that have lost value. */
  lemma {:induction false} LossyGame(wave: nat) returns (events: seq<Event>)
    requires wave >= 4
    ensures var g := Play(Start(), events); Flying(g) && !Empty(g.pool) && g.wave == wave && g.lost > 0
  {
    if wave == 4 {
      StartsFlying();
      var second := ClearWave(Start());
      var third := ClearWave(Play(Start(), second));
      var fourth := ClearWave(Play(Play(Start(), second), third));
      var lossy := LoseChild(Play(Play(Play(Start(), second), third), fourth));
      PlayAppend(Start(), second, third);
      PlayAppend(Start(), second + third, fourth);
      PlayAppend(Start(), second + third + fourth, lossy);
      events := second + third + fourth + lossy;
    } else {
      var before := LossyGame(wave - 1);
      var next := ClearWave(Play(Start(), before));
      PlayAppend(Start(), before, next);
      events := before + next;
    }
  }

  ghost predicate Reachable(g: Game) {
    exists events :: g == Play(Start(), events)
  }

  /** The account is exact in every reachable state of a wave if and only if it is one of the
      first three. */
  lemma ExactUpToWaveThree(wave: nat)
    ensures (forall g :: Reachable(g) && g.wave == wave ==> g.score + Sum(g.pool, Value) == 850 * g.spawned)
            <==> wave <= 3
  {
    if wave <= 3 {
      forall g | Reachable(g) && g.wave == wave
        ensures g.score + Sum(g.pool, Value) == 850 * g.spawned
      {
        var events :| g == Play(Start(), events);
        ScoreIsConserved(events);
      }
    } else {
      var events := LossyGame(wave);
      var g := Play(Start(), events);
      assert Reachable(g);
      ScoreIsConserved(events);
    }
  }

  // ----- the code

  datatype Asteroid = Asteroid(size: nat, active: bool)

  class AsteroidGame {
    const asteroids: array<Asteroid>
    var score: int
    var lives: int
    var wave: nat
    var paused: bool
    var gameOver: bool
    var shipAlive: bool
    var respawnTimer: int
    ghost var spawned: nat
    ghost var lost: nat

    ghost function Slots(): (s: Pool)
      reads asteroids
      ensures |s| == asteroids.Length
    {
      seq(asteroids.Length, i requires 0 <= i < asteroids.Length reads asteroids =>
        if asteroids[i].active then asteroids[i].size else 0)
    }

    ghost function Abs(): Game
      reads this, asteroids
    {
      Game(Slots(), score, wave, lives, gameOver, paused, shipAlive, respawnTimer, spawned, lost)
    }

    ghost predicate Valid()
      reads this, asteroids
    {
      && asteroids.Length == MAX_ASTEROIDS
      && forall i :: 0 <= i < asteroids.Length && asteroids[i].active ==> 0 < asteroids[i].size <= ASTEROID_LARGE
    }

    constructor ()
      ensures Valid() && Abs() == Start() && fresh(asteroids)
    {
      asteroids := new Asteroid[MAX_ASTEROIDS](_ => Asteroid(0, false));
      score, lives, wave, paused, gameOver, shipAlive, respawnTimer := 0, 3, 0, false, false, true, 0;
      spawned, lost := 0, 0;
      new;
      hide SpawnWave, PlaceMany, Sum, Weight;
      assert Slots() == Blank().pool;
      assert Abs() == Blank();
      SpawnNextWave();
    }

    /** Puts an asteroid into the first inactive slot, if there is one. */
    method InitFirstFree(size: nat)
      requires Valid() && 0 < size <= ASTEROID_LARGE
      modifies asteroids
      ensures Valid() && Slots() == Place(old(Slots()), size)
    {
      ghost var before := Slots();
      for n := 0 to asteroids.Length
        invariant Valid() && Slots() == before
        invariant FirstFree(before, n) == FirstFree(before, 0)
      {
        if !asteroids[n].active {
          asteroids[n] := Asteroid(size, true);
          assert Slots() == before[n := size];
          return;
        }
      }
    }

    method SpawnNextWave()
      requires Valid()
      modifies this`wave, this`spawned, asteroids
      ensures Valid() && Abs() == SpawnWave(old(Abs()))
    {
      hide Place, FirstFree, Sum;
      ghost var before := Slots();
      wave := wave + 1;
      var count := 3 + wave;
      if count > MAX_ASTEROIDS / 2 {
        count := MAX_ASTEROIDS / 2;
      }
      for i := 0 to count
        invariant Valid() && Slots() == PlaceMany(before, i)
        modifies asteroids
      {
        InitFirstFree(ASTEROID_LARGE);
      }
      spawned := spawned + count;
    }

    method Deactivate(a: nat)
      requires Valid() && a < asteroids.Length
      modifies asteroids
      ensures Valid() && Slots() == old(Slots())[a := 0]
    {
      asteroids[a] := asteroids[a].(active := false);
    }

    /** A bullet against the asteroid in slot a. */
    method HitAsteroid(a: nat)
      requires Valid() && a < asteroids.Length && asteroids[a].active
      modifies this`score, this`lost, asteroids
      ensures Valid() && Abs() == Hit(old(Abs()), a)
    {
      hide Place, LostBySplit, Sum;
      ghost var before := Slots();
      assert before[a] == asteroids[a].size;
      score := score + (4 - asteroids[a].size) * 50;
      lost := lost + LostBySplit(before, a);
      if asteroids[a].size > ASTEROID_SMALL {
        var newSize := asteroids[a].size - 1;
        Deactivate(a);
        InitFirstFree(newSize);
        InitFirstFree(newSize);
        assert Slots() == Split(before, a);
      } else {
        Deactivate(a);
      }
    }

    method BulletCollisions(f: Frame)
      requires Valid()
      modifies this`score, this`lost, asteroids
      ensures Valid() && Abs() == ShootFrom(old(Abs()), f, 0)
    {
      hide Shoot;
      ghost var start := Abs();
      for b := 0 to |f.armed|
        invariant Valid() && ShootFrom(Abs(), f, b) == ShootFrom(start, f, 0)
      {
        BulletCollision(f, b);
      }
    }

    method BulletCollision(f: Frame, b: nat)
      requires Valid() && b < |f.armed|
      modifies this`score, this`lost, asteroids
      ensures Valid() && Abs() == Shoot(old(Abs()), f, b)
      ensures BulletEffect(old(Abs()), f, b, Abs())
    {
      hide BulletEffect;
      ShotIsRight(Abs(), f, b);
      if !f.armed[b] {
        return;
      }
      for a := 0 to asteroids.Length
        invariant Valid() && Abs() == old(Abs())
        invariant FirstHit(Slots(), f.hits, b, a) == FirstHit(Slots(), f.hits, b, 0)
      {
        if asteroids[a].active && f.hits(b, a) {
          HitAsteroid(a);
          return;
        }
      }
    }

    method ShipCollisions(f: Frame)
      requires Valid()
      modifies this`shipAlive, this`respawnTimer, this`lives, this`gameOver
      ensures Valid() && Abs() == ShipCollision(old(Abs()), f)
      ensures var struck := old(shipAlive) && exists a :: 0 <= a < asteroids.Length && asteroids[a].active && f.touches(a);
              && shipAlive == (old(shipAlive) && !struck)
              && lives == (if struck then old(lives) - 1 else old(lives))
              && respawnTimer == (if struck then 120 else old(respawnTimer))
              && gameOver == (old(gameOver) || (struck && lives <= 0))
    {
      if shipAlive {
        for a := 0 to asteroids.Length
          invariant Abs() == old(Abs())
          invariant forall i :: 0 <= i < a ==> Slots()[i] == 0 || !f.touches(i)
        {
          if asteroids[a].active && f.touches(a) {
            assert ShipTouched(old(Abs()), f) by {
              assert Slots()[a] != 0;
            }
            shipAlive := false;
            respawnTimer := RESPAWN_FRAMES;
            lives := lives - 1;
            if lives <= 0 {
              gameOver := true;
            }
            return;
          }
        }
      }
    }

    method CheckWaveCleared()
      requires Valid()
      modifies this`wave, this`spawned, asteroids
      ensures Valid() && Abs() == CheckWave(old(Abs()))
    {
      var anyActive := false;
      for a := 0 to asteroids.Length
        invariant !anyActive && forall i :: 0 <= i < a ==> Slots()[i] == 0
      {
        if asteroids[a].active {
          assert Slots()[a] != 0;
          anyActive := true;
          break;
        }
      }
      if !anyActive {
        SpawnNextWave();
      }
    }

    method Update(f: Frame)
      requires Valid()
      modifies this, asteroids
      ensures Valid() && Abs() == Apply(old(Abs()), Event.Update(f))
    {
      if paused || gameOver {
        return;
      }
      ghost var g := Abs();
      CountDownRespawn();
      BulletCollisions(f);
      assert Abs() == ShootFrom(Respawn(g), f, 0);
      ShipCollisions(f);
      CheckWaveCleared();
    }

    method CountDownRespawn()
      requires Valid()
      modifies this`shipAlive, this`respawnTimer
      ensures Valid() && Abs() == Respawn(old(Abs()))
    {
      if !shipAlive {
        respawnTimer := respawnTimer - 1;
        if respawnTimer <= 0 {
          shipAlive := true;
        }
      }
    }

    method PressRestartKey()
      requires Valid()
      modifies this, asteroids
      ensures Valid() && Abs() == Apply(old(Abs()), PressRestart)
    {
      if gameOver {
        gameOver := false;
        score, lives, wave := 0, 3, 0;
        shipAlive := true;
        for a := 0 to asteroids.Length
          invariant forall i :: 0 <= i < a ==> !asteroids[i].active
          invariant Valid()
          modifies asteroids
        {
          asteroids[a] := asteroids[a].(active := false);
        }
        spawned, lost := 0, 0;
      }
    }

    method PressPauseKey()
      requires Valid()
      modifies this`paused
      ensures Valid() && Abs() == Apply(old(Abs()), PressPause)
    {
      paused := !paused;
    }
  }
}
