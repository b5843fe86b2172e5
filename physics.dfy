/** The first half of a server tick: per-player timers, respawn, movement and
    firing, then the bullets' flight against the terrain. */
module Physics {
  import opened Collision
  import opened Entities
  import Combat

  const MOVE_SPEED: real := 3.0
  const ROTATION_SPEED: real := 0.1
  /** Invulnerability after a respawn. */
  const RESPAWN_INVULN: int := 120
  /** Candidate points drawn for a respawn before the last one is taken. */
  const RESPAWN_ATTEMPTS: nat := 50
  /** The box a tank's centre is clamped to after moving. */
  const MIN_X: real := 20.0
  const MAX_X: real := 780.0
  const MIN_Y: real := 20.0
  const MAX_Y: real := 580.0

  // ---------------------------------------------------------------------------
  // Timers

  /** The per-tick countdowns of a live player.  Each timer counts down by one
      while positive and is otherwise left alone; the active power-up is
      dropped exactly when its buff timer runs out on this tick. */
  function Timers(p: Player): (r: Player)
    ensures r == p.(invulnerableTimer := r.invulnerableTimer, reloadTimer := r.reloadTimer,
                    buffTimer := r.buffTimer, activeItem := r.activeItem)
    ensures p.invulnerableTimer > 0 ==> r.invulnerableTimer == p.invulnerableTimer - 1
    ensures p.invulnerableTimer <= 0 ==> r.invulnerableTimer == p.invulnerableTimer
    ensures p.reloadTimer > 0 ==> r.reloadTimer == p.reloadTimer - 1
    ensures p.reloadTimer <= 0 ==> r.reloadTimer == p.reloadTimer
    ensures p.buffTimer > 0 ==> r.buffTimer == p.buffTimer - 1
    ensures p.buffTimer <= 0 ==> r.buffTimer == p.buffTimer
    ensures r.activeItem == if p.buffTimer == 1 then None else p.activeItem
  {
    var p1 := if p.invulnerableTimer > 0 then p.(invulnerableTimer := p.invulnerableTimer - 1) else p;
    var p2 := if p1.reloadTimer > 0 then p1.(reloadTimer := p1.reloadTimer - 1) else p1;
    if p2.buffTimer > 0 then
      var p3 := p2.(buffTimer := p2.buffTimer - 1);
      if p3.buffTimer <= 0 then p3.(activeItem := None) else p3
    else p2
  }

  /** `n` ticks of countdown. */
  function TimersFor(p: Player, n: nat): Player
    decreases n
  {
    if n == 0 then p else TimersFor(Timers(p), n - 1)
  }

  /** A buff set to run for `n` ticks (600 for rush) keeps its power-up for
      the first `n - 1` ticks and has lost it after the `n`-th. */
  lemma {:induction false} BuffExpiry(p: Player, n: nat, m: nat)
    requires p.buffTimer == n > 0 && m <= n
    ensures TimersFor(p, m).buffTimer == n - m
    ensures m < n ==> TimersFor(p, m).activeItem == p.activeItem
    ensures m == n ==> TimersFor(p, m).activeItem == None
    decreases m
  {
    if m > 0 {
      var q := Timers(p);
      if n == 1 {
        assert TimersFor(q, 0) == q;
      } else {
        BuffExpiry(q, n - 1, m - 1);
      }
    }
  }

  // ---------------------------------------------------------------------------
  // Movement

  /** The tank's speed: 3, half again under speed, double under rush. */
  function TankSpeed(item: Option<PowerUp>): (r: real)
    ensures MOVE_SPEED <= r <= 2.0 * MOVE_SPEED
    ensures item == Some(Speed) ==> r == 1.5 * MOVE_SPEED
    ensures item == Some(Rush) ==> r == 2.0 * MOVE_SPEED
    ensures item != Some(Speed) && item != Some(Rush) ==> r == MOVE_SPEED
  {
    if item == Some(Speed) then MOVE_SPEED * 1.5
    else if item == Some(Rush) then MOVE_SPEED * 2.0
    else MOVE_SPEED
  }

  /** The displacement along one axis with key `neg` pulling one way and `pos`
      the other; both keys cancel out. */
  function Axis(neg: bool, pos: bool, speed: real): real {
    (if pos then speed else 0.0) - (if neg then speed else 0.0)
  }

  function Clamp(v: real, lo: real, hi: real): real {
    if v < lo then lo else if v > hi then hi else v
  }

  function Turn(p: Player): real {
    p.angle - (if p.input.arrowLeft then ROTATION_SPEED else 0.0)
            + (if p.input.arrowRight then ROTATION_SPEED else 0.0)
  }

  predicate InBox(x: real, y: real) {
    MIN_X <= x <= MAX_X && MIN_Y <= y <= MAX_Y
  }

  /** Where the horizontal step ends: the full step when `CanMove` allows it
      from the old position, else the old column. */
  function StepX(g: Grid, p: Player): real
    requires ValidGrid(g)
  {
    var newX := p.x + Axis(p.input.a, p.input.d, TankSpeed(p.activeItem));
    if CanMove(g, newX, p.y, p.x) then newX else p.x
  }

  /** Where the vertical step from column `x` ends, corrected: the two corners
      of the leading edge are tested. */
  function StepY(g: Grid, p: Player, x: real): real
    requires ValidGrid(g)
  {
    var newY := p.y + Axis(p.input.w, p.input.s, TankSpeed(p.activeItem));
    if CanMoveY(g, x, newY, p.y) then newY else p.y
  }

  /** The vertical step as the server writes it, `canMove(p.x, newY, p.y)`:
      the new row is compared with the column and the side corners of the new
      column are tested. */
  function StepYAsWritten(g: Grid, p: Player, x: real): real
    requires ValidGrid(g)
  {
    var newY := p.y + Axis(p.input.w, p.input.s, TankSpeed(p.activeItem));
    if CanMove(g, x, newY, p.y) then newY else p.y
  }

  /** Movement, corrected on the vertical axis: the horizontal step, then the
      vertical one from the new column, turning by the arrow keys, and the
      centre clamped to the box.  Nothing but the position and the facing
      changes. */
  function Move(g: Grid, p: Player): (r: Player)
    requires ValidGrid(g)
    ensures r == p.(x := r.x, y := r.y, angle := r.angle)
    ensures InBox(r.x, r.y)
    ensures r.angle == Turn(p)
  {
    var x1 := StepX(g, p);
    p.(x := Clamp(x1, MIN_X, MAX_X), y := Clamp(StepY(g, p, x1), MIN_Y, MAX_Y), angle := Turn(p))
  }

  /** Movement as the server writes it. */
  function MoveAsWritten(g: Grid, p: Player): (r: Player)
    requires ValidGrid(g)
    ensures r == p.(x := r.x, y := r.y, angle := r.angle)
    ensures InBox(r.x, r.y)
    ensures r.angle == Turn(p)
  {
    var x1 := StepX(g, p);
    p.(x := Clamp(x1, MIN_X, MAX_X), y := Clamp(StepYAsWritten(g, p, x1), MIN_Y, MAX_Y), angle := Turn(p))
  }

  lemma StepXKeepsCentreClear(g: Grid, p: Player)
    requires ValidGrid(g) && !IsColliding(g, p.x, p.y)
    ensures !IsColliding(g, StepX(g, p), p.y)
    ensures StepX(g, p) == p.x || StepX(g, p) == p.x + Axis(p.input.a, p.input.d, TankSpeed(p.activeItem))
  {
    var newX := p.x + Axis(p.input.a, p.input.d, TankSpeed(p.activeItem));
    if CanMove(g, newX, p.y, p.x) {
      CanMoveKeepsCentreClear(g, p.x, p.y, newX);
    }
  }

  lemma StepYKeepsCentreClear(g: Grid, p: Player, x: real)
    requires ValidGrid(g) && !IsColliding(g, x, p.y)
    ensures !IsColliding(g, x, StepY(g, p, x))
    ensures StepY(g, p, x) == p.y || StepY(g, p, x) == p.y + Axis(p.input.w, p.input.s, TankSpeed(p.activeItem))
  {
    var newY := p.y + Axis(p.input.w, p.input.s, TankSpeed(p.activeItem));
    if CanMoveY(g, x, newY, p.y) {
      CanMoveYKeepsCentreClear(g, x, p.y, newY);
    }
  }

  /** On a walled grid, a tank whose centre is clear keeps it clear: it never
      drives into a wall.  Each axis either stays or takes its full step (the
      clamp never bites, since a clear point lies a tile inside the edge). */
  lemma MoveKeepsCentreClear(g: Grid, p: Player)
    requires ValidGrid(g) && BorderWalls(g) && !IsColliding(g, p.x, p.y)
    ensures var r := Move(g, p);
      !IsColliding(g, r.x, r.y) &&
      (r.x == p.x || r.x == p.x + Axis(p.input.a, p.input.d, TankSpeed(p.activeItem))) &&
      (r.y == p.y || r.y == p.y + Axis(p.input.w, p.input.s, TankSpeed(p.activeItem)))
  {
    var x1 := StepX(g, p);
    StepXKeepsCentreClear(g, p);
    var y1 := StepY(g, p, x1);
    StepYKeepsCentreClear(g, p, x1);
    BorderConfines(g, x1, y1);
    assert Clamp(x1, MIN_X, MAX_X) == x1 && Clamp(y1, MIN_Y, MAX_Y) == y1;
  }

  /** A grid walled all round with one obstacle, at row 5 and column 3. */
  const DEMO_GRID: Grid := seq(ROWS, r => seq(COLS, c => if IsBorder(r, c) || (r == 5 && c == 3) then WALL else FLOOR))

  /** A tank at `(80, 122)`, holding `s` and nothing else. */
  const DEMO_DRIVER: Player :=
    Player(80.0, 122.0, 0.0, false, 1, 0, 0, [None, None, None], None, 0, 0, 0, false,
           Input(false, false, true, false, false, false, false))

  /** The vertical test as written lets a tank drive its centre into a wall:
      moving down from `(80, 122)` it checks `(70, 119)` and `(70, 131)`, both
      floor, and ends at `(80, 125)`, inside the obstacle.  The corrected test
      refuses the step. */
  lemma MoveAsWrittenEntersWall()
    ensures ValidGrid(DEMO_GRID) && BorderWalls(DEMO_GRID)
    ensures !IsColliding(DEMO_GRID, DEMO_DRIVER.x, DEMO_DRIVER.y)
    ensures var r := MoveAsWritten(DEMO_GRID, DEMO_DRIVER); r.x == 80.0 && r.y == 125.0 && IsColliding(DEMO_GRID, r.x, r.y)
    ensures var r := Move(DEMO_GRID, DEMO_DRIVER); r.x == 80.0 && r.y == 122.0
  {
    var g, p := DEMO_GRID, DEMO_DRIVER;
    assert ValidGrid(g);
    assert Cell(80.0) == 3 && Cell(122.0) == 4 && Cell(125.0) == 5;
    assert Cell(70.0) == 2 && Cell(119.0) == 4 && Cell(131.0) == 5;
    assert Cell(74.0) == 2 && Cell(86.0) == 3 && Cell(135.0) == 5;
    assert g[4][3] == FLOOR && g[5][3] == WALL && g[4][2] == FLOOR && g[5][2] == FLOOR;
    assert TankSpeed(p.activeItem) == 3.0;
    assert CanMove(g, 80.0, 122.0, 80.0);
    assert CanMove(g, 80.0, 125.0, 122.0);
    assert !CanMoveY(g, 80.0, 125.0, 122.0);
  }

  // ---------------------------------------------------------------------------
  // Respawn

  predicate SafePoint(g: Grid, pt: SpawnPoint)
    requires ValidGrid(g)
  {
    IsSafeSpawn(g, pt.x, pt.y)
  }

  /** Which of the candidate points the respawn loop settles on, counting from
      the `k`-th: the first safe one, or the last candidate when none of the 50
      is safe. */
  function SpawnIndex(g: Grid, sample: nat -> SpawnPoint, k: nat): (n: nat)
    requires ValidGrid(g) && k < RESPAWN_ATTEMPTS
    ensures k <= n < RESPAWN_ATTEMPTS
    ensures forall j :: k <= j < n ==> !SafePoint(g, sample(j))
    ensures SafePoint(g, sample(n)) || n == RESPAWN_ATTEMPTS - 1
    decreases RESPAWN_ATTEMPTS - k
  {
    if SafePoint(g, sample(k)) || k == RESPAWN_ATTEMPTS - 1 then k
    else SpawnIndex(g, sample, k + 1)
  }

  /** The respawn loop: draw candidates until one is safe or 50 have been drawn. */
  method ChooseSpawn(g: Grid, sample: nat -> SpawnPoint) returns (pt: SpawnPoint)
    requires ValidGrid(g)
    ensures pt == sample(SpawnIndex(g, sample, 0))
  {
    var attempts: nat := 0;
    ghost var last: nat := attempts;
    pt := sample(attempts);
    attempts := attempts + 1;
    while !SafePoint(g, pt) && attempts < RESPAWN_ATTEMPTS
      invariant attempts == last + 1 <= RESPAWN_ATTEMPTS
      invariant pt == sample(last)
      invariant SpawnIndex(g, sample, 0) == SpawnIndex(g, sample, last)
      decreases RESPAWN_ATTEMPTS - attempts
    {
      last := attempts;
      pt := sample(attempts);
      attempts := attempts + 1;
    }
  }

  /** A safe candidate among the 50 guarantees a safe respawn. */
  lemma RespawnIsSafe(g: Grid, sample: nat -> SpawnPoint, k: nat)
    requires ValidGrid(g) && k < RESPAWN_ATTEMPTS && SafePoint(g, sample(k))
    ensures SafePoint(g, sample(SpawnIndex(g, sample, 0)))
    ensures SpawnIndex(g, sample, 0) <= k
  {
  }

  /** One tick of a dead player: the respawn timer counts down, and when it has
      run out the player comes back with one hit point, no power-up in effect,
      stealth off and 120 ticks of invulnerability, at the point the respawn
      loop chooses.  Score, inventory, facing and timers other than these are
      kept. */
  function DeadTick(g: Grid, p: Player, sample: nat -> SpawnPoint): (r: Player)
    requires ValidGrid(g) && p.isDead
    ensures r.respawnTimer == p.respawnTimer - 1
    ensures p.respawnTimer > 1 ==> r == p.(respawnTimer := p.respawnTimer - 1)
    ensures p.respawnTimer <= 1 ==>
              var pt := sample(SpawnIndex(g, sample, 0));
              r == p.(respawnTimer := p.respawnTimer - 1, isDead := false, hp := 1, invisible := false,
                       activeItem := None, invulnerableTimer := RESPAWN_INVULN, x := pt.x, y := pt.y)
  {
    var p1 := p.(respawnTimer := p.respawnTimer - 1);
    if p1.respawnTimer <= 0 then
      var pt := sample(SpawnIndex(g, sample, 0));
      p1.(isDead := false, hp := 1, invisible := false, activeItem := None,
          invulnerableTimer := RESPAWN_INVULN, x := pt.x, y := pt.y)
    else p1
  }

  /** `n` ticks of a dead player left alone. */
  function DeadFor(g: Grid, p: Player, sample: nat -> SpawnPoint, n: nat): Player
    requires ValidGrid(g)
    decreases n
  {
    if n == 0 || !p.isDead then p else DeadFor(g, DeadTick(g, p, sample), sample, n - 1)
  }

  /** A player killed with the 180-tick timer stays dead for 179 ticks and is
      back on the 180th; more generally a timer of `n` keeps it down for
      `n - 1` ticks. */
  lemma {:induction false} RespawnAfter(g: Grid, p: Player, sample: nat -> SpawnPoint, n: nat, m: nat)
    requires ValidGrid(g) && p.isDead && p.respawnTimer == n > 0 && m <= n
    ensures m < n ==> DeadFor(g, p, sample, m).isDead && DeadFor(g, p, sample, m).respawnTimer == n - m
    ensures m == n ==> !DeadFor(g, p, sample, m).isDead && DeadFor(g, p, sample, m).hp == 1
    decreases m
  {
    if m > 0 {
      var q := DeadTick(g, p, sample);
      if n == 1 {
        assert DeadFor(g, q, sample, 0) == q;
      } else {
        RespawnAfter(g, q, sample, n - 1, m - 1);
      }
    }
  }

  // ---------------------------------------------------------------------------
  // The player loop

  /** One iteration of the player loop for `id`: a dead player only runs its
      respawn countdown; a live one runs its timers, moves, and fires when the
      fire key is down and its reload timer has reached zero.  Firing aims
      along the new facing.  It moves as the server writes it
      (`MoveAsWritten`). */
  function TickPlayer(g: Grid, ps: Players, bs: seq<Bullet>, id: Id, env: Env): (r: (Players, seq<Bullet>))
    requires ValidGrid(g) && id in ps
    ensures r.0.Keys == ps.Keys
    ensures ps[id].isDead ==> r == (ps[id := DeadTick(g, ps[id], env.respawnSample(id))], bs)
    ensures !ps[id].isDead && !(Timers(ps[id]).input.fire && Timers(ps[id]).reloadTimer == 0) ==>
              r == (ps[id := MoveAsWritten(g, Timers(ps[id]))], bs)
  {
    var p := ps[id];
    if p.isDead then (ps[id := DeadTick(g, p, env.respawnSample(id))], bs)
    else
      var p1 := MoveAsWritten(g, Timers(p));
      var ps1 := ps[id := p1];
      if p1.input.fire && p1.reloadTimer == 0 then
        Combat.HandleShooting(ps1, bs, id, env.aim(p1.angle), env.laserTarget(id), env.bulletId(id))
      else (ps1, bs)
  }

  /** The player loop from the `k`-th player of `order` on. */
  function PlayersFrom(g: Grid, ps: Players, bs: seq<Bullet>, order: seq<Id>, k: nat, env: Env)
    : (r: (Players, seq<Bullet>))
    requires ValidGrid(g) && Covers(ps, order) && k <= |order|
    ensures r.0.Keys == ps.Keys
    decreases |order| - k
  {
    if k == |order| then (ps, bs)
    else
      var t := TickPlayer(g, ps, bs, order[k], env);
      PlayersFrom(g, t.0, t.1, order, k + 1, env)
  }

  /** Every centre in the box. */
  predicate AllInBox(ps: Players) {
    forall id :: id in ps ==> InBox(ps[id].x, ps[id].y)
  }

  lemma TickPlayerKeepsBox(g: Grid, ps: Players, bs: seq<Bullet>, id: Id, env: Env)
    requires ValidGrid(g) && id in ps && AllInBox(ps)
    ensures AllInBox(TickPlayer(g, ps, bs, id, env).0)
  {
    var p := ps[id];
    if !p.isDead {
      var p1 := MoveAsWritten(g, Timers(p));
      var ps1 := ps[id := p1];
      assert AllInBox(ps1);
      if p1.input.fire && p1.reloadTimer == 0 {
        var r := Combat.HandleShooting(ps1, bs, id, env.aim(p1.angle), env.laserTarget(id), env.bulletId(id));
        assert SameBodies(ps1, r.0);
      }
    }
  }

  /** Nobody leaves the box in the player loop: moving clamps, respawn points
      are drawn inside it, and shooting moves nobody. */
  lemma {:induction false} PlayersFromKeepsBox(g: Grid, ps: Players, bs: seq<Bullet>, order: seq<Id>, k: nat, env: Env)
    requires ValidGrid(g) && Covers(ps, order) && k <= |order| && AllInBox(ps)
    ensures AllInBox(PlayersFrom(g, ps, bs, order, k, env).0)
    decreases |order| - k
  {
    if k < |order| {
      var t := TickPlayer(g, ps, bs, order[k], env);
      TickPlayerKeepsBox(g, ps, bs, order[k], env);
      PlayersFromKeepsBox(g, t.0, t.1, order, k + 1, env);
    }
  }

  lemma TickPlayerKeepsStores(g: Grid, ps: Players, bs: seq<Bullet>, id: Id, env: Env)
    requires ValidGrid(g) && id in ps
    ensures SameStores(ps, TickPlayer(g, ps, bs, id, env).0)
  {
    var p := ps[id];
    if !p.isDead {
      var p1 := MoveAsWritten(g, Timers(p));
      var ps1 := ps[id := p1];
      assert SameStores(ps, ps1);
      if p1.input.fire && p1.reloadTimer == 0 {
        var r := Combat.HandleShooting(ps1, bs, id, env.aim(p1.angle), env.laserTarget(id), env.bulletId(id));
        assert SameBodies(ps1, r.0);
      }
    }
  }

  /** The player loop touches no inventory. */
  lemma {:induction false} PlayersFromKeepsStores(g: Grid, ps: Players, bs: seq<Bullet>, order: seq<Id>, k: nat, env: Env)
    requires ValidGrid(g) && Covers(ps, order) && k <= |order|
    ensures SameStores(ps, PlayersFrom(g, ps, bs, order, k, env).0)
    decreases |order| - k
  {
    if k < |order| {
      var t := TickPlayer(g, ps, bs, order[k], env);
      TickPlayerKeepsStores(g, ps, bs, order[k], env);
      PlayersFromKeepsStores(g, t.0, t.1, order, k + 1, env);
    }
  }

  // ---------------------------------------------------------------------------
  // Bullets against the terrain

  /** What one tick of flight does to a bullet. */
  datatype BulletFate = Flying(b: Bullet) | Detonated(x: real, y: real) | Dropped

  predicate InArena(b: Bullet) {
    0.0 <= b.x <= ARENA_WIDTH && 0.0 <= b.y <= ARENA_HEIGHT
  }

  /** The move along x: a bullet that would enter a blocked tile detonates if
      explosive, else stays put, reverses `vx` and spends a bounce. */
  function FlyX(g: Grid, b: Bullet): BulletFate
    requires ValidGrid(g)
  {
    var b1 := b.(x := b.x + b.vx);
    if IsColliding(g, b1.x, b1.y) then
      if b.kind == Explosive then Detonated(b1.x, b1.y)
      else Flying(b1.(x := b1.x - b1.vx, vx := -b1.vx, bounces := b1.bounces - 1))
    else Flying(b1)
  }

  /** The move along y, the same way. */
  function FlyY(g: Grid, b: Bullet): BulletFate
    requires ValidGrid(g)
  {
    var b1 := b.(y := b.y + b.vy);
    if IsColliding(g, b1.x, b1.y) then
      if b.kind == Explosive then Detonated(b1.x, b1.y)
      else Flying(b1.(y := b1.y - b1.vy, vy := -b1.vy, bounces := b1.bounces - 1))
    else Flying(b1)
  }

  /** One tick of a bullet's flight: x, then y, then a bullet that is out of
      bounces or out of the arena is dropped.  A kept bullet is in the arena
      with a bounce budget left, has its identity, owner and kind, and has
      spent at most one bounce per axis; only an explosive bullet
      detonates. */
  function BulletStep(g: Grid, b: Bullet): (r: BulletFate)
    requires ValidGrid(g)
    ensures r.Flying? ==>
              InArena(r.b) && r.b.bounces >= 0 &&
              r.b.id == b.id && r.b.ownerId == b.ownerId && r.b.kind == b.kind &&
              b.bounces - 2 <= r.b.bounces <= b.bounces
    ensures r.Detonated? ==> b.kind == Explosive
  {
    match FlyX(g, b)
    case Detonated(x, y) => Detonated(x, y)
    case Dropped => Dropped
    case Flying(b1) =>
      match FlyY(g, b1)
      case Detonated(x, y) => Detonated(x, y)
      case Dropped => Dropped
      case Flying(b2) =>
        if b2.bounces < 0 || b2.x < 0.0 || b2.x > ARENA_WIDTH || b2.y < 0.0 || b2.y > ARENA_HEIGHT then Dropped
        else Flying(b2)
  }

  /** In open space a bullet with a budget simply moves by its velocity, and
      a normal bullet that hits a wall on x alone comes back along x with one
      bounce spent. */
  lemma BulletFlight(g: Grid, b: Bullet)
    requires ValidGrid(g) && b.bounces >= 0
    ensures !IsColliding(g, b.x + b.vx, b.y) && !IsColliding(g, b.x + b.vx, b.y + b.vy) ==>
              BulletStep(g, b) == Flying(b.(x := b.x + b.vx, y := b.y + b.vy))
    ensures b.kind == Normal && b.bounces >= 1 && IsColliding(g, b.x + b.vx, b.y) &&
            !IsColliding(g, b.x, b.y + b.vy) && InArena(b.(y := b.y + b.vy)) ==>
              BulletStep(g, b) == Flying(b.(y := b.y + b.vy, vx := -b.vx, bounces := b.bounces - 1))
  {
    if !IsColliding(g, b.x + b.vx, b.y + b.vy) {
      if b.x + b.vx < 0.0 || b.x + b.vx >= ARENA_WIDTH || b.y + b.vy < 0.0 || b.y + b.vy >= ARENA_HEIGHT {
        OutsideArenaCollides(g, b.x + b.vx, b.y + b.vy);
      }
    }
  }

  /** The move along x in its three cases: into open space the bullet moves
      by `vx`; a normal bullet that meets a wall keeps its old `x`, turns
      `vx` round and spends a bounce; an explosive one detonates at the point
      where it met the wall. */
  lemma FlyXCases(g: Grid, b: Bullet)
    requires ValidGrid(g)
    ensures !IsColliding(g, b.x + b.vx, b.y) ==> FlyX(g, b) == Flying(b.(x := b.x + b.vx))
    ensures IsColliding(g, b.x + b.vx, b.y) && b.kind == Normal ==>
              FlyX(g, b) == Flying(b.(vx := -b.vx, bounces := b.bounces - 1))
    ensures IsColliding(g, b.x + b.vx, b.y) && b.kind == Explosive ==>
              FlyX(g, b) == Detonated(b.x + b.vx, b.y)
  {
  }

  /** The move along y in the same three cases. */
  lemma FlyYCases(g: Grid, b: Bullet)
    requires ValidGrid(g)
    ensures !IsColliding(g, b.x, b.y + b.vy) ==> FlyY(g, b) == Flying(b.(y := b.y + b.vy))
    ensures IsColliding(g, b.x, b.y + b.vy) && b.kind == Normal ==>
              FlyY(g, b) == Flying(b.(vy := -b.vy, bounces := b.bounces - 1))
    ensures IsColliding(g, b.x, b.y + b.vy) && b.kind == Explosive ==>
              FlyY(g, b) == Detonated(b.x, b.y + b.vy)
  {
  }

  /** The whole of one flight.  An explosive bullet detonates exactly when it
      meets a wall on either axis: at `(x + vx, y)` when the x move is
      blocked, else at `(x + vx, y + vy)`.  Otherwise, with `c` the bullet
      after both moves, it is kept, as `c`, exactly when it has a bounce left
      to spend and is inside the arena, and dropped otherwise. */
  lemma BulletStepCases(g: Grid, b: Bullet)
    requires ValidGrid(g)
    ensures BulletStep(g, b).Detonated? <==>
              b.kind == Explosive && (IsColliding(g, b.x + b.vx, b.y) || IsColliding(g, b.x + b.vx, b.y + b.vy))
    ensures b.kind == Explosive && IsColliding(g, b.x + b.vx, b.y) ==>
              BulletStep(g, b) == Detonated(b.x + b.vx, b.y)
    ensures b.kind == Explosive && !IsColliding(g, b.x + b.vx, b.y) && IsColliding(g, b.x + b.vx, b.y + b.vy) ==>
              BulletStep(g, b) == Detonated(b.x + b.vx, b.y + b.vy)
    ensures b.kind == Normal ==>
              var c := FlyY(g, FlyX(g, b).b).b;
              (BulletStep(g, b) == Flying(c) <==> c.bounces >= 0 && InArena(c)) &&
              (BulletStep(g, b) == Dropped <==> !(c.bounces >= 0 && InArena(c)))
  {
    FlyXCases(g, b);
    if b.kind == Explosive && !IsColliding(g, b.x + b.vx, b.y) {
      FlyYCases(g, FlyX(g, b).b);
    }
  }

  /** The bullets as one step of flight leaves them: the flying ones in their
      order, the rest gone. */
  function Survivors(g: Grid, s: seq<Bullet>): (r: seq<Bullet>)
    requires ValidGrid(g)
    ensures |r| <= |s|
    ensures forall j :: 0 <= j < |r| ==> InArena(r[j]) && r[j].bounces >= 0
  {
    if s == [] then []
    else
      var rest := Survivors(g, s[..|s| - 1]);
      match BulletStep(g, s[|s| - 1])
      case Flying(c) => rest + [c]
      case _ => rest
  }

  /** The outcome for index `i` spliced back. */
  function PutFate(bs: seq<Bullet>, i: nat, f: BulletFate): (r: seq<Bullet>)
    requires i < |bs|
    ensures |r| == if f.Flying? then |bs| else |bs| - 1
    ensures r[..i] == bs[..i]
    ensures r[i..] == (if f.Flying? then [f.b] else []) + bs[i + 1..]
  {
    if f.Flying? then bs[i := f.b] else bs[..i] + bs[i + 1..]
  }

  /** What the loop below index `i` leaves, once bullet `i` has flown, is
      what the loop from index `i` leaves. */
  lemma SurvivorsStep(g: Grid, bs: seq<Bullet>, i: nat, rest: seq<Bullet>)
    requires ValidGrid(g) && i < |bs|
    requires var bs1 := PutFate(bs, i, BulletStep(g, bs[i])); rest == Survivors(g, bs1[..i]) + bs1[i..]
    ensures rest == Survivors(g, bs[..i + 1]) + bs[i + 1..]
  {
    var f := BulletStep(g, bs[i]);
    assert bs[..i + 1][..i] == bs[..i];
    assert Survivors(g, bs[..i + 1]) == Survivors(g, bs[..i]) + (if f.Flying? then [f.b] else []);
  }

  /** One iteration of the bullet loop: bullet `i` flies, and a detonation
      sets off the explosion among the players. */
  function FlyStep(g: Grid, ps: Players, order: seq<Id>, bs: seq<Bullet>, i: nat): (r: (Players, seq<Bullet>))
    requires ValidGrid(g) && Covers(ps, order) && i < |bs|
    ensures SameBodies(ps, r.0)
    ensures |r.1| >= i
  {
    var f := BulletStep(g, bs[i]);
    (if f.Detonated? then Combat.Explode(ps, order, f.x, f.y, bs[i].ownerId) else ps, PutFate(bs, i, f))
  }

  /** The bullet loop from index `i` down.  A detonation sets off the
      explosion among the players.  The bullets below `i + 1` are still to
      fly, those above have flown, and in the end the bullets are the
      survivors of the unflown part followed by the flown part. */
  function TerrainFrom(g: Grid, ps: Players, order: seq<Id>, bs: seq<Bullet>, i: int)
    : (r: (Players, seq<Bullet>))
    requires ValidGrid(g) && Covers(ps, order) && -1 <= i < |bs|
    ensures SameBodies(ps, r.0)
    ensures r.1 == Survivors(g, bs[..i + 1]) + bs[i + 1..]
    decreases i + 1
  {
    if i < 0 then
      assert bs[..0] == [];
      (ps, bs)
    else
      var t := FlyStep(g, ps, order, bs, i);
      var r := TerrainFrom(g, t.0, order, t.1, i - 1);
      SameBodiesTrans(ps, t.0, r.0);
      SurvivorsStep(g, bs, i, r.1);
      r
  }

  predicate AllNormal(bs: seq<Bullet>) {
    forall j :: 0 <= j < |bs| ==> bs[j].kind == Normal
  }

  lemma PutFateKeepsNormal(bs: seq<Bullet>, i: nat, f: BulletFate)
    requires i < |bs| && AllNormal(bs) && (f.Flying? ==> f.b.kind == Normal)
    ensures AllNormal(PutFate(bs, i, f))
  {
    var bs1 := PutFate(bs, i, f);
    forall j | 0 <= j < |bs1| ensures bs1[j].kind == Normal {
      if j >= i {
        assert bs1[j] == bs1[i..][j - i];
      } else {
        assert bs1[j] == bs1[..i][j];
      }
    }
  }

  /** Without explosive bullets the terrain pass touches no player. */
  lemma {:induction false} TerrainSparesPlayers(g: Grid, ps: Players, order: seq<Id>, bs: seq<Bullet>, i: int)
    requires ValidGrid(g) && Covers(ps, order) && -1 <= i < |bs| && AllNormal(bs)
    ensures TerrainFrom(g, ps, order, bs, i).0 == ps
    decreases i + 1
  {
    if i >= 0 {
      var f := BulletStep(g, bs[i]);
      assert !f.Detonated?;
      PutFateKeepsNormal(bs, i, f);
      TerrainSparesPlayers(g, ps, order, PutFate(bs, i, f), i - 1);
    }
  }

  /** `updatePhysics`: the player loop in join order, then the bullet loop
      over every bullet, those just fired included. */
  function UpdatePhysics(g: Grid, w: World, env: Env): (r: World)
    requires ValidGrid(g) && Covers(w.players, w.order)
    ensures r.order == w.order && r.items == w.items
    ensures r.players.Keys == w.players.Keys
    ensures forall j :: 0 <= j < |r.bullets| ==> InArena(r.bullets[j]) && r.bullets[j].bounces >= 0
  {
    var t := PlayersFrom(g, w.players, w.bullets, w.order, 0, env);
    var u := TerrainFrom(g, t.0, w.order, t.1, |t.1| - 1);
    assert t.1[|t.1|..] == [] && t.1[..|t.1|] == t.1;
    World(u.0, w.order, u.1, w.items)
  }

  /** After the physics step every bullet is a survivor of one step of flight
      of the bullets there were, in order, shots of this tick included. */
  lemma PhysicsBullets(g: Grid, w: World, env: Env)
    requires ValidGrid(g) && Covers(w.players, w.order)
    ensures UpdatePhysics(g, w, env).bullets == Survivors(g, PlayersFrom(g, w.players, w.bullets, w.order, 0, env).1)
  {
    var t := PlayersFrom(g, w.players, w.bullets, w.order, 0, env);
    assert t.1[|t.1|..] == [] && t.1[..|t.1|] == t.1;
  }

  /** The physics step touches no inventory. */
  lemma PhysicsKeepsStores(g: Grid, w: World, env: Env)
    requires ValidGrid(g) && Covers(w.players, w.order)
    ensures SameStores(w.players, UpdatePhysics(g, w, env).players)
  {
    PlayersFromKeepsStores(g, w.players, w.bullets, w.order, 0, env);
  }

  /** Everyone stays in the box through the physics step. */
  lemma PhysicsKeepsBox(g: Grid, w: World, env: Env)
    requires ValidGrid(g) && Covers(w.players, w.order) && AllInBox(w.players)
    ensures AllInBox(UpdatePhysics(g, w, env).players)
  {
    PlayersFromKeepsBox(g, w.players, w.bullets, w.order, 0, env);
  }
}
