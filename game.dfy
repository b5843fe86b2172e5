/** One server tick: the physics step followed by the game logic (pickup
    spawning, bullets against players, rush, pickups), and what a tick keeps. */
module Game {
  import opened Collision
  import opened Entities
  import opened Combat
  import opened Physics
  import opened Pickups

  /** `updateGameLogic`: spawn, then bullets against players (as the server
      writes that pass, double cut included), then the rush pairs, then the
      pickups, each on the state the previous one left. */
  function GameLogic(g: Grid, w: World, env: Env): (r: World)
    requires ValidGrid(g) && Covers(w.players, w.order)
    ensures r.order == w.order && r.players.Keys == w.players.Keys
  {
    var items := SpawnPickup(g, w.items, env);
    var c := CombatPassAsWritten(w.players, w.order, w.bullets);
    var ps := RushPass(c.0, w.order);
    var k := PickupPass(ps, w.order, items);
    World(k.0, w.order, c.1, k.1)
  }

  /** One tick of the game loop. */
  function Tick(g: Grid, w: World, env: Env): (r: World)
    requires ValidGrid(g) && Covers(w.players, w.order)
    ensures r.order == w.order && r.players.Keys == w.players.Keys
  {
    GameLogic(g, UpdatePhysics(g, w, env), env)
  }

  /** What every tick keeps: the roster and its iteration order agree, every
      player has three slots and is in the box, no bullet has a negative
      bounce budget, and there are at most five pickups, on safe points and
      30 units apart. */
  predicate Sound(g: Grid, w: World)
    requires ValidGrid(g)
  {
    WellFormed(w.players, w.order) && AllInBox(w.players) && BudgetsOk(w.bullets) &&
    |w.items| <= MAX_POWERUPS && AllSafe(g, w.items) && Spread(w.items)
  }

  /** A state with the roster, the order and the pickups of a sound one,
      the same inventories, everyone in the box and every bounce budget
      non-negative is sound. */
  lemma SoundLike(g: Grid, w: World, r: World)
    requires ValidGrid(g) && Sound(g, w)
    requires r.order == w.order && r.items == w.items && r.players.Keys == w.players.Keys
    requires SameStores(w.players, r.players) && AllInBox(r.players)
    requires forall j :: 0 <= j < |r.bullets| ==> r.bullets[j].bounces >= 0
    ensures Sound(g, r)
  {
  }

  lemma PhysicsKeepsSound(g: Grid, w: World, env: Env)
    requires ValidGrid(g) && Sound(g, w)
    ensures Sound(g, UpdatePhysics(g, w, env))
  {
    PhysicsKeepsStores(g, w, env);
    PhysicsKeepsBox(g, w, env);
    SoundLike(g, w, UpdatePhysics(g, w, env));
  }

  lemma GameLogicKeepsSound(g: Grid, w: World, env: Env)
    requires ValidGrid(g) && Sound(g, w)
    ensures Sound(g, GameLogic(g, w, env))
  {
    var items := SpawnPickup(g, w.items, env);
    SpawnKeepsMapTidy(g, w.items, env);
    var c := CombatPassAsWritten(w.players, w.order, w.bullets);
    CombatAsWrittenKeepsBudgets(w.players, w.order, w.bullets);
    var ps := RushPass(c.0, w.order);
    SameBodiesTrans(w.players, c.0, ps);
    PickupPlaces(ps, w.order, items);
    PickupTidy(g, ps, w.order, items);
    var k := PickupPass(ps, w.order, items);
    assert GameLogic(g, w, env) == World(k.0, w.order, c.1, k.1);
    assert AllInBox(k.0) && WellFormed(k.0, w.order);
  }

  /** Every tick keeps the state sound. */
  lemma TickKeepsSound(g: Grid, w: World, env: Env)
    requires ValidGrid(g) && Sound(g, w)
    ensures Sound(g, Tick(g, w, env))
  {
    PhysicsKeepsSound(g, w, env);
    GameLogicKeepsSound(g, UpdatePhysics(g, w, env), env);
  }

  lemma {:induction false} NobodyPicksUp(items: seq<Item>, i: int)
    requires -1 <= i < |items|
    ensures PickupsFrom(map[], [], items, i) == (map[], items)
    decreases i + 1
  {
    if i >= 0 {
      assert PickupFrom(map[], [], 0, items[i]) == (map[], false);
      NobodyPicksUp(items, i - 1);
    }
  }

  /** With no players and no bullets a tick changes nothing but, at times,
      the pickups: one may spawn. */
  lemma EmptyArenaTick(g: Grid, items: seq<Item>, env: Env)
    requires ValidGrid(g)
    ensures Tick(g, World(map[], [], [], items), env) == World(map[], [], [], SpawnPickup(g, items, env))
  {
    var w := World(map[], [], [], items);
    assert UpdatePhysics(g, w, env) == w;
    var items1 := SpawnPickup(g, items, env);
    NobodyPicksUp(items1, |items1| - 1);
    assert RushPass(map[], []) == map[];
  }

  /** A lone tank at `(100, 100)`, facing angle 0, nothing in effect, fire
      key down. */
  const LONE_SHOOTER: Player :=
    Player(100.0, 100.0, 0.0, false, 1, 0, 0, [None, None, None], None, 0, 0, 0, false,
           Input(false, false, false, false, false, false, true))

  /** Draws for a tick in which angle 0 points along x, no beam hits, and the
      spawner stays idle. */
  const QUIET_ENV: Env :=
    Env(a => Dir(1.0, 0.0), id => None, id => k => Point(20.0, 20.0), id => "b",
        0.5, Point(20.0, 20.0), 0.0, "i")

  /** Firing from `(100, 100)` along x makes a normal bullet at `(120, 100)`
      with velocity `(7, 0)` and one bounce, and the same tick's flight takes
      it to `(127, 100)`. */
  lemma LoneShot()
    ensures ValidGrid(DEMO_GRID)
    ensures var w := World(map["A" := LONE_SHOOTER], ["A"], [], []);
      var t := PlayersFrom(DEMO_GRID, w.players, w.bullets, w.order, 0, QUIET_ENV);
      t.1 == [Bullet("b", 120.0, 100.0, 7.0, 0.0, Normal, 1, "A")] &&
      UpdatePhysics(DEMO_GRID, w, QUIET_ENV).bullets == [Bullet("b", 127.0, 100.0, 7.0, 0.0, Normal, 1, "A")]
  {
    var g := DEMO_GRID;
    assert ValidGrid(g);
    var w := World(map["A" := LONE_SHOOTER], ["A"], [], []);
    var b0 := Bullet("b", 120.0, 100.0, 7.0, 0.0, Normal, 1, "A");
    var p1 := MoveAsWritten(g, Timers(LONE_SHOOTER));
    assert p1.x == 100.0 && p1.y == 100.0 && p1.angle == 0.0 && p1.reloadTimer == 0 by {
      assert Axis(false, false, TankSpeed(None)) == 0.0;
      assert StepX(g, Timers(LONE_SHOOTER)) == 100.0;
      assert StepYAsWritten(g, Timers(LONE_SHOOTER), 100.0) == 100.0;
    }
    var t := TickPlayer(g, w.players, w.bullets, "A", QUIET_ENV);
    assert t.1 == [b0] by {
      ShotBullet(w.players["A" := p1], [], "A", Dir(1.0, 0.0), None, "b");
    }
    assert PlayersFrom(g, w.players, w.bullets, w.order, 0, QUIET_ENV).1 == t.1 by {
      assert PlayersFrom(g, w.players, w.bullets, w.order, 0, QUIET_ENV)
          == PlayersFrom(g, t.0, t.1, w.order, 1, QUIET_ENV);
    }
    assert Cell(127.0) == 5 && Cell(100.0) == 4;
    assert g[4][5] == FLOOR;
    BulletFlight(g, b0);
    PhysicsBullets(g, w, QUIET_ENV);
    assert Survivors(g, [b0]) == [b0.(x := 127.0)] by {
      assert [b0][..0] == [];
    }
  }
}
