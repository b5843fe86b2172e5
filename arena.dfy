/** The server's three stores as one object updated in place, with the
    routines of the tick written as the server runs them: loops over the
    players in join order, reverse-index loops that cut bullets and pickups
    out of their arrays.  Each routine is proved to leave the stores exactly
    as the rule it implements says. */
module Server {
  import opened Collision
  import opened Entities
  import Combat
  import Physics
  import Pickups
  import Game

  class Arena {
    /** The map made at start-up. */
    const grid: Grid
    /** `PLAYERS`, and the order in which its keys were added. */
    var players: Players
    var order: seq<Id>
    var bullets: seq<Bullet>
    var mapItems: seq<Item>

    /** The map is well formed and every id of `order` has a record.  That
        the stores stay sound (each id listed once, three slots each, and so
        on) is the second clause of `Tick`'s contract. */
    ghost predicate Valid()
      reads this
    {
      ValidGrid(grid) && Covers(players, order)
    }

    function State(): World
      reads this
    {
      World(players, order, bullets, mapItems)
    }

    /** An arena on grid `g` with the players already joined. */
    constructor (g: Grid, roster: Players, joined: seq<Id>)
      requires ValidGrid(g) && Covers(roster, joined)
      ensures Valid() && grid == g
      ensures State() == World(roster, joined, [], [])
    {
      grid := g;
      players := roster;
      order := joined;
      bullets := [];
      mapItems := [];
    }

    // -------------------------------------------------------------------------
    // Kills, explosions, laser hits

    method KillPlayer(victim: Id, killerId: Id)
      requires Valid() && victim in players
      modifies this
      ensures order == old(order) && bullets == old(bullets) && mapItems == old(mapItems)
      ensures Valid()
      ensures players == Combat.KillPlayer(old(players), victim, killerId)
    {
      var v := players[victim];
      players := players[victim := v.(isDead := true, hp := 0, respawnTimer := Combat.RESPAWN_TICKS)];
      if killerId != "" && killerId in players && killerId != victim {
        players := players[killerId := players[killerId].(score := players[killerId].score + 1)];
      }
    }

    /** One iteration of the explosion's loop: the blast reaching player `id`. */
    method BlastAt(id: Id, x: real, y: real, ownerId: Id)
      requires Valid() && id in players
      modifies this
      ensures order == old(order) && bullets == old(bullets) && mapItems == old(mapItems)
      ensures Valid()
      ensures players == Combat.ExplodeAt(old(players), id, x, y, ownerId)
    {
      var p := players[id];
      if !p.isDead && DistSq(p.x, p.y, x, y) < Combat.EXPLOSION_RADIUS_SQ {
        if p.invulnerableTimer > 0 {
        } else if p.activeItem == Some(Shield) {
          players := players[id := p.(activeItem := None, invulnerableTimer := Combat.BLAST_SHIELD_TICKS)];
        } else {
          KillPlayer(id, ownerId);
        }
      }
    }

    method CreateExplosion(x: real, y: real, ownerId: Id)
      requires Valid()
      modifies this
      ensures order == old(order) && bullets == old(bullets) && mapItems == old(mapItems)
      ensures Valid()
      ensures players == Combat.Explode(old(players), order, x, y, ownerId)
    {
      ghost var ps0 := players;
      var k := 0;
      while k < |order|
        invariant Valid() && k <= |order|
        invariant order == old(order) && bullets == old(bullets) && mapItems == old(mapItems)
        invariant Combat.ExplodeFrom(players, order, k, x, y, ownerId) == Combat.Explode(ps0, order, x, y, ownerId)
      {
        Combat.ExplodeFromStep(players, order, k, x, y, ownerId);
        BlastAt(order[k], x, y, ownerId);
        k := k + 1;
      }
    }

    method HandleLaserHit(victimId: Id, shooterId: Id)
      requires Valid()
      modifies this
      ensures order == old(order) && bullets == old(bullets) && mapItems == old(mapItems)
      ensures Valid()
      ensures players == Combat.HandleLaserHit(old(players), victimId, shooterId)
    {
      if victimId !in players || players[victimId].isDead {
        return;
      }
      var victim := players[victimId];
      if victim.invulnerableTimer > 0 {
        return;
      }
      if victim.activeItem == Some(Parry) {
        players := players[victimId := victim.(activeItem := None)];
        if shooterId in players {
          KillPlayer(shooterId, victimId);
        }
      } else {
        KillPlayer(victimId, shooterId);
      }
    }

    // -------------------------------------------------------------------------
    // Firing

    /** The laser branch: the shooter's record `p` gets the laser's reload
        time, and the beam strikes `target`, unless that names the shooter or
        the empty id. */
    method FireLaser(id: Id, p: Player, target: Option<Id>)
      requires Valid() && id in players
      requires p.x == players[id].x && p.y == players[id].y && p.inventory == players[id].inventory
      modifies this
      ensures order == old(order) && bullets == old(bullets) && mapItems == old(mapItems)
      ensures Valid()
      ensures players == Combat.LaserShot(old(players), id, p, target)
    {
      players := players[id := p.(reloadTimer := Combat.LASER_RELOAD)];
      if target.Some? && target.value != id && target.value != "" {
        HandleLaserHit(target.value, id);
      }
    }

    /** Fires for player `id` along `aim`; `target` is the player the laser
        beam strikes, if any, and `bulletId` names a new bullet. */
    method HandleShooting(id: Id, aim: Dir, target: Option<Id>, bulletId: string)
      requires Valid() && id in players
      modifies this
      ensures order == old(order) && mapItems == old(mapItems)
      ensures Valid()
      ensures (players, bullets) == Combat.HandleShooting(old(players), old(bullets), id, aim, target, bulletId)
    {
      var p := players[id];
      if p.activeItem == Some(Rush) {
        return;
      }
      if p.invisible {
        p := p.(invisible := false, activeItem := None);
      }
      ghost var p1 := p;
      p := p.(reloadTimer := Combat.RELOAD_TIME);
      if p.activeItem == Some(Laser) {
        FireLaser(id, p, target);
        return;
      }
      if p.activeItem == Some(Autofire) {
        p := p.(reloadTimer := Combat.AUTOFIRE_RELOAD);
      }
      var speed := Combat.BULLET_SPEED;
      if p.activeItem == Some(Speed) {
        speed := speed * 1.5;
      }
      var bounces := 1;
      if p.activeItem == Some(Bounce) {
        bounces := 3;
      }
      if p.activeItem == Some(Explosion) {
        bounces := 0;
      }
      var kind := if p.activeItem == Some(Explosion) then Explosive else Normal;
      players := players[id := p];
      bullets := bullets + [Bullet(bulletId, p.x + aim.cos * Combat.MUZZLE_OFFSET, p.y + aim.sin * Combat.MUZZLE_OFFSET,
                                   aim.cos * speed, aim.sin * speed, kind, bounces, id)];
      ghost var sb := Combat.BulletShot(old(players), old(bullets), id, p1, aim, bulletId).1;
      ghost var n := |old(bullets)|;
      assert sb[n].x == bullets[n].x;
      assert sb[n].y == bullets[n].y;
      assert sb[n].vx == bullets[n].vx;
      assert sb[n].vy == bullets[n].vy;
      assert (players, bullets) == Combat.BulletShot(old(players), old(bullets), id, p1, aim, bulletId);
    }

    // -------------------------------------------------------------------------
    // The physics step

    /** A dead player's tick: the respawn countdown and, when it runs out,
        the respawn at a point the sampling loop picks. */
    method RespawnTick(id: Id, sample: nat -> SpawnPoint)
      requires Valid() && id in players && players[id].isDead
      modifies this
      ensures order == old(order) && bullets == old(bullets) && mapItems == old(mapItems)
      ensures Valid()
      ensures players == old(players)[id := Physics.DeadTick(grid, old(players)[id], sample)]
    {
      var p := players[id];
      p := p.(respawnTimer := p.respawnTimer - 1);
      if p.respawnTimer <= 0 {
        p := p.(isDead := false, hp := 1, invisible := false, activeItem := None,
                invulnerableTimer := Physics.RESPAWN_INVULN);
        var pt := Physics.ChooseSpawn(grid, sample);
        p := p.(x := pt.x, y := pt.y);
      }
      players := players[id := p];
    }

    /** The countdown of a live player's timers; an expiring buff ends its
        power-up. */
    method CountDown(id: Id)
      requires Valid() && id in players
      modifies this
      ensures order == old(order) && bullets == old(bullets) && mapItems == old(mapItems)
      ensures Valid()
      ensures players == old(players)[id := Physics.Timers(old(players)[id])]
    {
      var p := players[id];
      if p.invulnerableTimer > 0 {
        p := p.(invulnerableTimer := p.invulnerableTimer - 1);
      }
      if p.reloadTimer > 0 {
        p := p.(reloadTimer := p.reloadTimer - 1);
      }
      if p.buffTimer > 0 {
        p := p.(buffTimer := p.buffTimer - 1);
        if p.buffTimer <= 0 {
          p := p.(activeItem := None);
        }
      }
      players := players[id := p];
    }

    /** Where the held keys would take player `p` at its current speed. */
    static method Aim(p: Player) returns (newX: real, newY: real)
      ensures newX == p.x + Physics.Axis(p.input.a, p.input.d, Physics.TankSpeed(p.activeItem))
      ensures newY == p.y + Physics.Axis(p.input.w, p.input.s, Physics.TankSpeed(p.activeItem))
    {
      var speed := Physics.MOVE_SPEED;
      if p.activeItem == Some(Speed) {
        speed := speed * 1.5;
      }
      if p.activeItem == Some(Rush) {
        speed := speed * 2.0;
      }
      newX, newY := p.x, p.y;
      if p.input.w {
        newY := newY - speed;
      }
      if p.input.s {
        newY := newY + speed;
      }
      if p.input.a {
        newX := newX - speed;
      }
      if p.input.d {
        newX := newX + speed;
      }
    }

    /** The step by the held keys, one axis at a time, each kept only when
        `canMove` allows it.  The vertical test takes its arguments as the
        server passes them: the column as the moving coordinate and the old
        row as its old value. */
    method Step(id: Id)
      requires Valid() && id in players
      modifies this
      ensures order == old(order) && bullets == old(bullets) && mapItems == old(mapItems)
      ensures Valid()
      ensures var p := old(players)[id];
        var x1 := Physics.StepX(grid, p);
        players == old(players)[id := p.(x := x1, y := Physics.StepYAsWritten(grid, p, x1))]
    {
      var p := players[id];
      ghost var p0 := p;
      var newX, newY := Aim(p);
      if CanMove(grid, newX, p.y, p.x) {
        p := p.(x := newX);
      }
      assert p == p0.(x := Physics.StepX(grid, p0));
      if CanMove(grid, p.x, newY, p.y) {
        p := p.(y := newY);
      }
      assert p.y == Physics.StepYAsWritten(grid, p0, p.x);
      players := players[id := p];
    }

    /** Turning by the arrow keys and the clamp of the centre to the box. */
    method TurnAndClamp(id: Id)
      requires Valid() && id in players
      modifies this
      ensures order == old(order) && bullets == old(bullets) && mapItems == old(mapItems)
      ensures Valid()
      ensures var p := old(players)[id];
        players == old(players)[id := p.(x := Physics.Clamp(p.x, Physics.MIN_X, Physics.MAX_X),
                                         y := Physics.Clamp(p.y, Physics.MIN_Y, Physics.MAX_Y),
                                         angle := Physics.Turn(p))]
    {
      var p := players[id];
      if p.input.arrowLeft {
        p := p.(angle := p.angle - Physics.ROTATION_SPEED);
      }
      if p.input.arrowRight {
        p := p.(angle := p.angle + Physics.ROTATION_SPEED);
      }
      var cx := if p.x < Physics.MAX_X then p.x else Physics.MAX_X;
      var cy := if p.y < Physics.MAX_Y then p.y else Physics.MAX_Y;
      p := p.(x := if cx > Physics.MIN_X then cx else Physics.MIN_X,
              y := if cy > Physics.MIN_Y then cy else Physics.MIN_Y);
      players := players[id := p];
    }

    /** Movement: the step, the turn and the clamp. */
    method Drive(id: Id)
      requires Valid() && id in players
      modifies this
      ensures order == old(order) && bullets == old(bullets) && mapItems == old(mapItems)
      ensures Valid()
      ensures players == old(players)[id := Physics.MoveAsWritten(grid, old(players)[id])]
    {
      Step(id);
      TurnAndClamp(id);
    }

    /** One iteration of the player loop. */
    method UpdatePlayer(id: Id, env: Env)
      requires Valid() && id in players
      modifies this
      ensures order == old(order) && mapItems == old(mapItems)
      ensures Valid()
      ensures (players, bullets) == Physics.TickPlayer(grid, old(players), old(bullets), id, env)
    {
      if players[id].isDead {
        RespawnTick(id, env.respawnSample(id));
        return;
      }
      CountDown(id);
      Drive(id);
      assert players == old(players)[id := Physics.MoveAsWritten(grid, Physics.Timers(old(players)[id]))];
      var p := players[id];
      if p.input.fire && p.reloadTimer == 0 {
        HandleShooting(id, env.aim(p.angle), env.laserTarget(id), env.bulletId(id));
      }
    }

    /** The flight of one bullet over the grid: along x, then along y, each
        undone and reversed (or, for an explosive bullet, ending in a
        detonation) on hitting a wall, then the budget and arena checks. */
    method Flight(b: Bullet) returns (f: Physics.BulletFate)
      requires Valid()
      ensures f == Physics.BulletStep(grid, b)
    {
      var c := b.(x := b.x + b.vx);
      if IsColliding(grid, c.x, c.y) {
        if c.kind == Explosive {
          return Physics.Detonated(c.x, c.y);
        }
        c := c.(x := c.x - c.vx, vx := -c.vx, bounces := c.bounces - 1);
      }
      assert Physics.FlyX(grid, b) == Physics.Flying(c);
      ghost var c1 := c;
      c := c.(y := c.y + c.vy);
      if IsColliding(grid, c.x, c.y) {
        if c.kind == Explosive {
          return Physics.Detonated(c.x, c.y);
        }
        c := c.(y := c.y - c.vy, vy := -c.vy, bounces := c.bounces - 1);
      }
      assert Physics.FlyY(grid, c1) == Physics.Flying(c);
      if c.bounces < 0 || c.x < 0.0 || c.x > ARENA_WIDTH || c.y < 0.0 || c.y > ARENA_HEIGHT {
        f := Physics.Dropped;
      } else {
        f := Physics.Flying(c);
      }
    }

    /** One iteration of the bullet loop: the flight of bullet `i`; a
        detonation blasts the players, and a bullet that does not fly on
        leaves the list. */
    method FlyBullet(i: nat)
      requires Valid() && i < |bullets|
      modifies this
      ensures order == old(order) && mapItems == old(mapItems)
      ensures Valid()
      ensures (players, bullets) == Physics.FlyStep(grid, old(players), order, old(bullets), i)
    {
      var b := bullets[i];
      var f := Flight(b);
      if f.Detonated? {
        CreateExplosion(f.x, f.y, b.ownerId);
      }
      if f.Flying? {
        bullets := bullets[i := f.b];
      } else {
        bullets := bullets[..i] + bullets[i + 1..];
      }
    }

    /** The loop over the players in join order. */
    method MovePlayers(env: Env)
      requires Valid()
      modifies this
      ensures order == old(order) && mapItems == old(mapItems)
      ensures Valid()
      ensures (players, bullets) == Physics.PlayersFrom(grid, old(players), old(bullets), order, 0, env)
    {
      var k := 0;
      while k < |order|
        invariant Valid() && k <= |order|
        invariant order == old(order) && mapItems == old(mapItems)
        invariant Physics.PlayersFrom(grid, players, bullets, order, k, env)
               == Physics.PlayersFrom(grid, old(players), old(bullets), order, 0, env)
      {
        UpdatePlayer(order[k], env);
        k := k + 1;
      }
    }

    /** The reverse-index loop over the bullets. */
    method MoveBullets()
      requires Valid()
      modifies this
      ensures order == old(order) && mapItems == old(mapItems)
      ensures Valid()
      ensures (players, bullets) == Physics.TerrainFrom(grid, old(players), order, old(bullets), |old(bullets)| - 1)
    {
      var i := |bullets| - 1;
      while i >= 0
        invariant Valid() && -1 <= i < |bullets|
        invariant order == old(order) && mapItems == old(mapItems)
        invariant Physics.TerrainFrom(grid, players, order, bullets, i)
               == Physics.TerrainFrom(grid, old(players), order, old(bullets), |old(bullets)| - 1)
      {
        FlyBullet(i);
        i := i - 1;
      }
    }

    /** `updatePhysics`. */
    method UpdatePhysics(env: Env)
      requires Valid()
      modifies this
      ensures Valid()
      ensures State() == Physics.UpdatePhysics(grid, old(State()), env)
    {
      MovePlayers(env);
      MoveBullets();
    }

    // -------------------------------------------------------------------------
    // The game logic

    /** The pickup spawner. */
    method SpawnPickup(env: Env)
      requires Valid()
      modifies this
      ensures players == old(players) && order == old(order) && bullets == old(bullets)
      ensures Valid()
      ensures mapItems == Pickups.SpawnPickup(grid, old(mapItems), env)
    {
      if |mapItems| < MAX_POWERUPS && env.spawnRoll < Pickups.SPAWN_CHANCE {
        var px, py := env.spawnAt.x, env.spawnAt.y;
        if IsSafeSpawn(grid, px, py) {
          var isStacked := Pickups.Stacked(mapItems, px, py);
          if !isStacked {
            mapItems := mapItems + [Item(env.itemId, px, py, Pickups.KindOf(env.kindRoll))];
          }
        }
      }
    }

    /** What bullet `b` does to player `id`, whom it reaches: an explosive
        bullet detonates, a parry reflects it, a shield absorbs it, an
        invulnerable tank stops it, and anyone else is killed by it. */
    method Hit(id: Id, b: Bullet) returns (nb: Bullet, kind: Combat.HitKind)
      requires Valid() && Combat.Hits(players, id, b)
      modifies this
      ensures order == old(order) && bullets == old(bullets) && mapItems == old(mapItems)
      ensures Valid()
      ensures players == Combat.ApplyHit(old(players), order, id, b)
      ensures kind == Combat.KindOfHit(old(players)[id], b)
      ensures nb == if kind == Combat.Parried then Combat.Reflect(b, id) else b
    {
      nb := b;
      var p := players[id];
      if b.kind == Explosive {
        CreateExplosion(b.x, b.y, b.ownerId);
        return nb, Combat.Detonates;
      }
      if p.activeItem == Some(Parry) {
        players := players[id := p.(activeItem := None)];
        nb := nb.(vx := -nb.vx, vy := -nb.vy, ownerId := id, bounces := Combat.PARRY_BOUNCES);
        nb := nb.(x := nb.x + nb.vx * 2.0, y := nb.y + nb.vy * 2.0);
        return nb, Combat.Parried;
      }
      if p.activeItem == Some(Shield) {
        players := players[id := p.(activeItem := None, invulnerableTimer := Combat.BULLET_SHIELD_TICKS)];
        return nb, Combat.Shielded;
      }
      if p.invulnerableTimer > 0 {
        return nb, Combat.Ignored;
      }
      if p.invisible {
        players := players[id := p.(invisible := false, activeItem := None)];
      }
      assert Combat.KindOfHit(p, b) == Combat.Kills;
      assert players == old(players)[id := if p.invisible then p.(invisible := false, activeItem := None) else p];
      KillPlayer(id, b.ownerId);
      kind := Combat.Kills;
    }

    /** Bullet `b` against the `k`-th player: the dead and the bullet's
        owner are skipped, and so is anyone out of reach; `hit` is the branch
        taken, if any. */
    method Strike(k: nat, b: Bullet) returns (nb: Bullet, hit: Option<Combat.HitKind>)
      requires Valid() && k < |order|
      modifies this
      ensures order == old(order) && bullets == old(bullets) && mapItems == old(mapItems)
      ensures Valid()
      ensures !Combat.Hits(old(players), order[k], b) ==> players == old(players) && nb == b && hit == None
      ensures Combat.Hits(old(players), order[k], b) ==>
                players == Combat.ApplyHit(old(players), order, order[k], b) &&
                hit == Some(Combat.KindOfHit(old(players)[order[k]], b)) &&
                nb == if hit == Some(Combat.Parried) then Combat.Reflect(b, order[k]) else b
    {
      var id := order[k];
      var p := players[id];
      if p.isDead || b.ownerId == id || DistSq(b.x, b.y, p.x, p.y) >= Combat.HIT_DIST_SQ {
        return b, None;
      }
      var kind;
      nb, kind := Hit(id, b);
      hit := Some(kind);
    }

    /** The inner loop of the bullet-versus-player pass for bullet `i`, as
        the server runs it: the players in join order; an explosion or a kill
        cuts index `i` and ends the loop, a parry turns the bullet and goes
        on, and a shield or an invulnerable tank cuts index `i` and goes on
        with the same bullet.  `inList` says whether the bullet is still the
        one at index `i`: the server's reflection changes the bullet in the
        list only while it is there. */
    method ResolveBullet(i: nat)
      requires Valid() && i < |bullets|
      modifies this
      ensures order == old(order) && mapItems == old(mapItems)
      ensures Valid()
      ensures (players, bullets) == Combat.ResolveAsWrittenFrom(old(players), order, 0, old(bullets)[i], old(bullets), i, true)
    {
      var b := bullets[i];
      ghost var r := Combat.ResolveAsWrittenFrom(players, order, 0, b, bullets, i, true);
      var k := 0;
      var inList := true;
      var stop := false;
      while k < |order| && !stop
        invariant Valid() && k <= |order|
        invariant order == old(order) && mapItems == old(mapItems)
        invariant inList ==> i < |bullets|
        invariant !stop ==> Combat.ResolveAsWrittenFrom(players, order, k, b, bullets, i, inList) == r
        invariant stop ==> (players, bullets) == r
      {
        Combat.ResolveAsWrittenStep(players, order, k, b, bullets, i, inList);
        var nb, hit := Strike(k, b);
        if hit == Some(Combat.Detonates) || hit == Some(Combat.Kills) {
          bullets := Combat.Splice(bullets, i);
          inList, stop := false, true;
        } else if hit == Some(Combat.Parried) {
          b := nb;
          if inList {
            bullets := bullets[i := b];
          }
        } else if hit.Some? {
          bullets := Combat.Splice(bullets, i);
          inList := false;
        }
        k := k + 1;
      }
    }

    /** One pair of the rush pass. */
    method RushPair(a: Id, b: Id)
      requires Valid() && a in players && b in players
      modifies this
      ensures order == old(order) && bullets == old(bullets) && mapItems == old(mapItems)
      ensures Valid()
      ensures players == Combat.RushPair(old(players), a, b)
    {
      var p1 := players[a];
      var p2 := players[b];
      if p1.isDead || p2.isDead {
        return;
      }
      if DistSq(p1.x, p1.y, p2.x, p2.y) < Combat.RUSH_DIST_SQ {
        if p1.activeItem == Some(Rush) && p2.activeItem != Some(Rush) {
          KillPlayer(b, a);
        } else if p2.activeItem == Some(Rush) && p1.activeItem != Some(Rush) {
          KillPlayer(a, b);
        }
      }
    }

    /** The inner loop of the rush pass: the `i`-th player against every
        later one. */
    method RushRow(i: nat)
      requires Valid() && i < |order|
      modifies this
      ensures order == old(order) && bullets == old(bullets) && mapItems == old(mapItems)
      ensures Valid()
      ensures players == Combat.RushInner(old(players), order, i, i + 1)
    {
      var j := i + 1;
      while j < |order|
        invariant Valid() && i + 1 <= j <= |order|
        invariant order == old(order) && bullets == old(bullets) && mapItems == old(mapItems)
        invariant Combat.RushInner(players, order, i, j) == Combat.RushInner(old(players), order, i, i + 1)
      {
        Combat.RushInnerStep(players, order, i, j);
        RushPair(order[i], order[j]);
        j := j + 1;
      }
    }

    /** The rush pass over every pair of `Object.keys(PLAYERS)`. */
    method RushPass()
      requires Valid()
      modifies this
      ensures order == old(order) && bullets == old(bullets) && mapItems == old(mapItems)
      ensures Valid()
      ensures players == Combat.RushPass(old(players), order)
    {
      var i := 0;
      while i < |order|
        invariant Valid() && i <= |order|
        invariant order == old(order) && bullets == old(bullets) && mapItems == old(mapItems)
        invariant Combat.RushOuter(players, order, i) == Combat.RushPass(old(players), order)
      {
        RushRow(i);
        i := i + 1;
      }
    }

    /** The inner loop of the pickup pass for pickup `i`. */
    method OfferPickup(i: nat)
      requires Valid() && i < |mapItems|
      modifies this
      ensures order == old(order) && bullets == old(bullets)
      ensures Valid()
      ensures var t := Pickups.PickupFrom(old(players), order, 0, old(mapItems)[i]);
        players == t.0 &&
        mapItems == (if t.1 then old(mapItems)[..i] + old(mapItems)[i + 1..] else old(mapItems))
    {
      var item := mapItems[i];
      ghost var t := Pickups.PickupFrom(players, order, 0, item);
      var k := 0;
      var picked := false;
      while k < |order| && !picked
        invariant Valid() && k <= |order|
        invariant order == old(order) && bullets == old(bullets) && mapItems == old(mapItems)
        invariant !picked ==> Pickups.PickupFrom(players, order, k, item) == t
        invariant picked ==> (players, true) == t
      {
        var id := order[k];
        var p := players[id];
        if !p.isDead && DistSq(p.x, p.y, item.x, item.y) < Pickups.PICKUP_DIST_SQ {
          if p.activeItem.None? {
            p := p.(activeItem := Some(item.kind), buffTimer := 0);
            picked := true;
            if item.kind == Rush {
              p := p.(buffTimer := Pickups.RUSH_TICKS);
            }
            if item.kind == Stealth {
              p := p.(invisible := true);
            }
          } else {
            var s := Pickups.FindFreeSlot(p.inventory);
            if s < Pickups.Looked(p.inventory) {
              p := p.(inventory := p.inventory[s := Some(item.kind)]);
              picked := true;
            }
          }
          if picked {
            players := players[id := p];
          }
        }
        k := k + 1;
      }
      if picked {
        mapItems := mapItems[..i] + mapItems[i + 1..];
      }
    }

    /** `updateGameLogic`. */
    method UpdateGameLogic(env: Env)
      requires Valid()
      modifies this
      ensures Valid()
      ensures State() == Game.GameLogic(grid, old(State()), env)
    {
      SpawnPickup(env);
      ghost var ps0, bs0 := players, bullets;
      var i := |bullets| - 1;
      while i >= 0
        invariant Valid() && -1 <= i < |bullets|
        invariant order == old(order) && mapItems == Pickups.SpawnPickup(grid, old(mapItems), env)
        invariant Combat.CombatAsWrittenFrom(players, order, bullets, i) == Combat.CombatPassAsWritten(ps0, order, bs0)
      {
        ResolveBullet(i);
        i := i - 1;
      }
      RushPass();
      ghost var ps2, items2 := players, mapItems;
      i := |mapItems| - 1;
      while i >= 0
        invariant Valid() && -1 <= i < |mapItems|
        invariant order == old(order) && bullets == Combat.CombatPassAsWritten(ps0, order, bs0).1
        invariant Pickups.PickupsFrom(players, order, mapItems, i) == Pickups.PickupPass(ps2, order, items2)
      {
        OfferPickup(i);
        i := i - 1;
      }
    }

    /** One tick of the game loop. */
    method Tick(env: Env)
      requires Valid()
      modifies this
      ensures Valid()
      ensures State() == Game.Tick(grid, old(State()), env)
      ensures Game.Sound(grid, old(State())) ==> Game.Sound(grid, State())
    {
      ghost var w0 := State();
      UpdatePhysics(env);
      UpdateGameLogic(env);
      if Game.Sound(grid, w0) {
        Game.TickKeepsSound(grid, w0, env);
      }
    }

    // -------------------------------------------------------------------------
    // Client messages

    /** The `equip` message of player `id` for slot `slot`. */
    method Equip(id: Id, slot: int)
      requires Valid()
      modifies this
      ensures order == old(order) && bullets == old(bullets) && mapItems == old(mapItems)
      ensures Valid()
      ensures players == Pickups.Equip(old(players), id, slot)
    {
      if id !in players || players[id].isDead {
        return;
      }
      var p := players[id];
      if 0 <= slot < |p.inventory| && p.inventory[slot].Some? {
        var kind := p.inventory[slot].value;
        p := p.(activeItem := Some(kind), inventory := p.inventory[slot := None]);
        p := p.(invisible := kind == Stealth, reloadTimer := 0);
        if kind == Rush {
          p := p.(buffTimer := Pickups.RUSH_TICKS);
        }
        if kind == Autofire {
          p := p.(reloadTimer := 0);
        }
        players := players[id := p];
      }
    }
  }
}
