/** The records the server keeps: players keyed by connection id, the live
    bullets and the pickups lying on the map. */
module Entities {

  datatype Option<T> = None | Some(value: T)

  /** A connection id; the records of `PLAYERS` are keyed by it. */
  type Id = string

  datatype PowerUp = Speed | Shield | Bounce | Rush | Autofire | Stealth | Parry | Laser | Explosion

  /** The kinds a new pickup is drawn from, in the server's order. */
  const POWERUP_TYPES: seq<PowerUp> :=
    [Speed, Shield, Bounce, Rush, Autofire, Stealth, Parry, Laser, Explosion]

  /** Inventory slots per player. */
  const SLOTS: int := 3
  /** Most pickups on the map at once. */
  const MAX_POWERUPS: int := 5

  /** The client's latest key snapshot: w/s move up and down, a/d left and
      right, the arrow keys turn, space fires. */
  datatype Input = Input(w: bool, a: bool, s: bool, d: bool,
                         arrowLeft: bool, arrowRight: bool, fire: bool)

  datatype Player = Player(
    x: real, y: real, angle: real,
    isDead: bool, hp: int, score: nat, respawnTimer: int,
    inventory: seq<Option<PowerUp>>, activeItem: Option<PowerUp>,
    buffTimer: int, reloadTimer: int, invulnerableTimer: int,
    invisible: bool, input: Input)

  /** The server's bullet types 'normal' and 'explosion'. */
  datatype BulletKind = Normal | Explosive

  datatype Bullet = Bullet(id: string, x: real, y: real, vx: real, vy: real,
                           kind: BulletKind, bounces: int, ownerId: Id)

  datatype Item = Item(id: string, x: real, y: real, kind: PowerUp)

  type Players = map<Id, Player>

  datatype Point = Point(x: real, y: real)

  /** A point drawn as `(20 + rand * 760, 20 + rand * 560)`. */
  type SpawnPoint = p: Point | 20.0 <= p.x < 780.0 && 20.0 <= p.y < 580.0 witness Point(20.0, 20.0)

  /** A draw of `Math.random()`. */
  type Unit = r: real | 0.0 <= r < 1.0

  /** `(Math.cos(a), Math.sin(a))` for a facing angle `a`. */
  datatype Dir = Dir(cos: real, sin: real)

  /** What one tick takes from outside the rules: trigonometry, the laser's
      ray casting and the random draws.
      - `aim(a)` is the direction of angle `a`;
      - `laserTarget(id)` is the player struck by the beam `id` fires, if
        any (the ray cast skips the shooter, and a target naming the shooter
        is ignored where the beam is fired);
      - `respawnSample(id)(k)` is the `k`-th candidate spawn point of `id`;
      - `bulletId(id)` names a bullet `id` fires;
      - `spawnRoll`, `spawnAt`, `kindRoll` and `itemId` are the draws of the
        pickup spawner. */
  datatype Env = Env(
    aim: real -> Dir,
    laserTarget: Id -> Option<Id>,
    respawnSample: Id -> nat -> SpawnPoint,
    bulletId: Id -> string,
    spawnRoll: Unit, spawnAt: SpawnPoint, kindRoll: Unit, itemId: string)

  /** The three stores, with `order` the iteration order of `PLAYERS` (the
      order in which the players joined). */
  datatype World = World(players: Players, order: seq<Id>, bullets: seq<Bullet>, items: seq<Item>)

  predicate Distinct(s: seq<Id>) {
    forall i, j :: 0 <= i < j < |s| ==> s[i] != s[j]
  }

  /** The suffix of a duplicate-free sequence from `k` is its `k`-th element
      followed by a suffix that does not contain it. */
  lemma SplitAt(s: seq<Id>, k: nat)
    requires Distinct(s) && k < |s|
    ensures s[k..] == [s[k]] + s[k + 1..] && s[k] !in s[k + 1..]
  {
    assert s[k..] == [s[k]] + s[k + 1..];
    forall j | k + 1 <= j < |s| ensures s[j] != s[k] { }
  }

  /** `order` lists every key of the store exactly once, and every player has
      three inventory slots. */
  predicate WellFormed(ps: Players, order: seq<Id>) {
    Distinct(order) &&
    (forall id :: id in ps ==> id in order) &&
    Covers(ps, order) &&
    (forall id :: id in ps ==> |ps[id].inventory| == SLOTS)
  }

  /** Every id of `order` has a record. */
  predicate Covers(ps: Players, order: seq<Id>) {
    forall id :: id in order ==> id in ps
  }

  predicate ValidWorld(w: World) {
    WellFormed(w.players, w.order)
  }

  function DistSq(x1: real, y1: real, x2: real, y2: real): real {
    (x1 - x2) * (x1 - x2) + (y1 - y2) * (y1 - y2)
  }

  /** Players keep their key set, their positions and their inventories. */
  predicate SameBodies(ps: Players, qs: Players) {
    qs.Keys == ps.Keys &&
    forall id :: id in ps ==>
      qs[id].x == ps[id].x && qs[id].y == ps[id].y && qs[id].inventory == ps[id].inventory
  }

  lemma SameBodiesTrans(ps: Players, qs: Players, rs: Players)
    requires SameBodies(ps, qs) && SameBodies(qs, rs)
    ensures SameBodies(ps, rs)
  {
  }

  /** Players keep their key set, their positions and the number of their
      inventory slots. */
  predicate SamePlaces(ps: Players, qs: Players) {
    qs.Keys == ps.Keys &&
    forall id :: id in ps ==>
      qs[id].x == ps[id].x && qs[id].y == ps[id].y && |qs[id].inventory| == |ps[id].inventory|
  }

  /** Players keep their key set and their inventories. */
  predicate SameStores(ps: Players, qs: Players) {
    qs.Keys == ps.Keys && forall id :: id in ps ==> qs[id].inventory == ps[id].inventory
  }

  /** The number of power-ups a player holds, active or in a slot. */
  function Holdings(p: Player): nat {
    (if p.activeItem.Some? then 1 else 0) + Stored(p.inventory)
  }

  /** The number of filled slots. */
  function Stored(inv: seq<Option<PowerUp>>): nat {
    if inv == [] then 0 else (if inv[0].Some? then 1 else 0) + Stored(inv[1..])
  }
}
