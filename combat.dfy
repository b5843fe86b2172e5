/** Kill resolution, explosions, laser hits, firing, the bullet-versus-player
    pass and the rush rule of the server's tick. */
module Combat {
  import opened Entities

  const RESPAWN_TICKS: int := 180
  /** 60-unit blast radius, squared. */
  const EXPLOSION_RADIUS_SQ: real := 3600.0
  /** Invulnerability a shield grants when it absorbs a blast. */
  const BLAST_SHIELD_TICKS: int := 60
  /** (TANK_RADIUS + BULLET_RADIUS)^2 = (10 + 4)^2. */
  const HIT_DIST_SQ: real := 196.0
  /** Invulnerability a shield grants when it absorbs a bullet. */
  const BULLET_SHIELD_TICKS: int := 90
  /** Bounce budget of a parried bullet. */
  const PARRY_BOUNCES: int := 2
  /** 30-unit rush reach, squared. */
  const RUSH_DIST_SQ: real := 900.0

  const RELOAD_TIME: int := 30
  const LASER_RELOAD: int := 60
  const AUTOFIRE_RELOAD: int := 15
  const BULLET_SPEED: real := 7.0
  /** Distance ahead of the tank at which a bullet appears. */
  const MUZZLE_OFFSET: real := 20.0

  // ---------------------------------------------------------------------------
  // Kills

  /** A kill scores for `killer` when it names a player that is present and is
      not the victim. */
  predicate Awards(ps: Players, killer: Id, victim: Id) {
    killer != "" && killer in ps && killer != victim
  }

  function KillPlayer(ps: Players, victim: Id, killer: Id): (r: Players)
    requires victim in ps
    ensures SameBodies(ps, r)
    ensures r[victim] == ps[victim].(isDead := true, hp := 0, respawnTimer := RESPAWN_TICKS)
    ensures forall id :: id in ps && id != victim ==> r[id] == ps[id].(score := r[id].score)
    ensures forall id :: id in ps && id != victim ==>
              r[id].score == ps[id].score + (if id == killer && Awards(ps, killer, victim) then 1 else 0)
  {
    var v := ps[victim];
    var ps1 := ps[victim := v.(isDead := true, hp := 0, respawnTimer := RESPAWN_TICKS)];
    if Awards(ps1, killer, victim) then ps1[killer := ps1[killer].(score := ps1[killer].score + 1)]
    else ps1
  }

  // ---------------------------------------------------------------------------
  // Explosions

  /** Does a blast at `(x, y)` kill `p`? */
  predicate BlastKills(p: Player, x: real, y: real) {
    !p.isDead && DistSq(p.x, p.y, x, y) < EXPLOSION_RADIUS_SQ &&
    p.invulnerableTimer <= 0 && p.activeItem != Some(Shield)
  }

  /** What a blast at `(x, y)` does to one player, its score aside: out of
      reach, dead or invulnerable players are untouched, a shield is spent for
      60 ticks of invulnerability, everyone else dies. */
  function Blast(p: Player, x: real, y: real): Player {
    if p.isDead || DistSq(p.x, p.y, x, y) >= EXPLOSION_RADIUS_SQ || p.invulnerableTimer > 0 then p
    else if p.activeItem == Some(Shield) then p.(activeItem := None, invulnerableTimer := BLAST_SHIELD_TICKS)
    else p.(isDead := true, hp := 0, respawnTimer := RESPAWN_TICKS)
  }

  /** One iteration of the explosion's loop over the players. */
  function ExplodeAt(ps: Players, id: Id, x: real, y: real, owner: Id): (r: Players)
    requires id in ps
    ensures SameBodies(ps, r)
  {
    var p := ps[id];
    if p.isDead then ps
    else if DistSq(p.x, p.y, x, y) < EXPLOSION_RADIUS_SQ then
      if p.invulnerableTimer > 0 then ps
      else if p.activeItem == Some(Shield) then
        ps[id := p.(activeItem := None, invulnerableTimer := BLAST_SHIELD_TICKS)]
      else KillPlayer(ps, id, owner)
    else ps
  }

  /** A blast reaching `id` does to it what `Blast` says and leaves its score
      alone; of the others only the owner's score may change, by one point
      when the blast kills `id` and the kill counts. */
  lemma ExplodeAtOutcome(ps: Players, id: Id, x: real, y: real, owner: Id)
    requires id in ps
    ensures var r := ExplodeAt(ps, id, x, y, owner);
      r[id].(score := ps[id].score) == Blast(ps[id], x, y) && r[id].score == ps[id].score &&
      (forall j :: j in ps && j != id ==> r[j] == ps[j].(score := r[j].score)) &&
      (forall j :: j in ps && j != id ==>
         r[j].score == ps[j].score + (if j == owner && BlastKills(ps[id], x, y) && Awards(ps, owner, id) then 1 else 0))
  {
  }

  /** The explosion's loop, from the `k`-th player on. */
  function ExplodeFrom(ps: Players, order: seq<Id>, k: nat, x: real, y: real, owner: Id): (r: Players)
    requires Covers(ps, order) && k <= |order|
    ensures SameBodies(ps, r)
    decreases |order| - k
  {
    if k == |order| then ps
    else ExplodeFrom(ExplodeAt(ps, order[k], x, y, owner), order, k + 1, x, y, owner)
  }

  lemma ExplodeFromStep(ps: Players, order: seq<Id>, k: nat, x: real, y: real, owner: Id)
    requires Covers(ps, order) && k < |order|
    ensures ExplodeFrom(ps, order, k, x, y, owner) == ExplodeFrom(ExplodeAt(ps, order[k], x, y, owner), order, k + 1, x, y, owner)
  {
  }

  /** `createExplosion(x, y, owner)` without its presentation event. */
  function Explode(ps: Players, order: seq<Id>, x: real, y: real, owner: Id): (r: Players)
    requires Covers(ps, order)
    ensures SameBodies(ps, r)
  {
    ExplodeFrom(ps, order, 0, x, y, owner)
  }

  /** The players from the `k`-th on, other than `owner`, that a blast kills. */
  function BlastVictims(ps: Players, order: seq<Id>, k: nat, x: real, y: real, owner: Id): nat
    requires Covers(ps, order) && k <= |order|
    decreases |order| - k
  {
    if k == |order| then 0
    else (if order[k] != owner && BlastKills(ps[order[k]], x, y) then 1 else 0)
         + BlastVictims(ps, order, k + 1, x, y, owner)
  }

  lemma {:induction false} BlastVictimsFrame(ps: Players, qs: Players, order: seq<Id>, k: nat, x: real, y: real, owner: Id)
    requires Covers(ps, order) && Covers(qs, order) && k <= |order|
    requires forall j :: k <= j < |order| ==> BlastKills(qs[order[j]], x, y) == BlastKills(ps[order[j]], x, y)
    ensures BlastVictims(qs, order, k, x, y, owner) == BlastVictims(ps, order, k, x, y, owner)
    decreases |order| - k
  {
    if k < |order| {
      BlastVictimsFrame(ps, qs, order, k + 1, x, y, owner);
    }
  }

  lemma BlastIgnoresScore(p: Player, x: real, y: real, score: nat)
    ensures Blast(p.(score := score), x, y) == Blast(p, x, y).(score := score)
  {
  }

  lemma {:induction false} ExplodeFromFates(ps: Players, order: seq<Id>, k: nat, x: real, y: real, owner: Id)
    requires Covers(ps, order) && Distinct(order) && k <= |order|
    ensures var r := ExplodeFrom(ps, order, k, x, y, owner);
      forall id :: id in ps ==>
        r[id].(score := ps[id].score) == if id in order[k..] then Blast(ps[id], x, y) else ps[id]
    decreases |order| - k
  {
    if k < |order| {
      var v := order[k];
      var ps1 := ExplodeAt(ps, v, x, y, owner);
      var r := ExplodeFrom(ps1, order, k + 1, x, y, owner);
      ExplodeFromFates(ps1, order, k + 1, x, y, owner);
      SplitAt(order, k);
      forall id | id in ps
        ensures r[id].(score := ps[id].score) == if id in order[k..] then Blast(ps[id], x, y) else ps[id]
      {
        FateOfOne(ps, order, k, x, y, owner, id, r[id]);
      }
    }
  }

  /** The induction step of `ExplodeFromFates` for one player `id`, whose
      record after the loop from `k + 1` on is `q`. */
  lemma FateOfOne(ps: Players, order: seq<Id>, k: nat, x: real, y: real, owner: Id, id: Id, q: Player)
    requires k < |order| && order[k] in ps && id in ps && order[k] !in order[k + 1..]
    requires order[k..] == [order[k]] + order[k + 1..]
    requires var ps1 := ExplodeAt(ps, order[k], x, y, owner);
      q.(score := ps1[id].score) == if id in order[k + 1..] then Blast(ps1[id], x, y) else ps1[id]
    ensures q.(score := ps[id].score) == if id in order[k..] then Blast(ps[id], x, y) else ps[id]
  {
    var ps1 := ExplodeAt(ps, order[k], x, y, owner);
    ExplodeAtOutcome(ps, order[k], x, y, owner);
    if id != order[k] {
      BlastIgnoresScore(ps[id], x, y, ps1[id].score);
    }
  }

  lemma ExplodeAtScores(ps: Players, v: Id, x: real, y: real, owner: Id)
    requires v in ps
    ensures var ps1 := ExplodeAt(ps, v, x, y, owner);
      (forall id :: id in ps && id != owner ==> ps1[id].score == ps[id].score) &&
      (owner in ps ==>
         ps1[owner].score == ps[owner].score + (if owner != "" && owner != v && BlastKills(ps[v], x, y) then 1 else 0))
  {
    ExplodeAtOutcome(ps, v, x, y, owner);
  }

  lemma BlastVictimsStep(ps: Players, order: seq<Id>, k: nat, x: real, y: real, owner: Id)
    requires Covers(ps, order) && Distinct(order) && k < |order|
    ensures BlastVictims(ExplodeAt(ps, order[k], x, y, owner), order, k + 1, x, y, owner)
         == BlastVictims(ps, order, k + 1, x, y, owner)
  {
    var ps1 := ExplodeAt(ps, order[k], x, y, owner);
    ExplodeAtOutcome(ps, order[k], x, y, owner);
    forall j | k + 1 <= j < |order|
      ensures BlastKills(ps1[order[j]], x, y) == BlastKills(ps[order[j]], x, y)
    {
      assert order[j] != order[k];
    }
    BlastVictimsFrame(ps, ps1, order, k + 1, x, y, owner);
  }

  lemma {:induction false} ExplodeFromScores(ps: Players, order: seq<Id>, k: nat, x: real, y: real, owner: Id)
    requires Covers(ps, order) && Distinct(order) && k <= |order|
    ensures var r := ExplodeFrom(ps, order, k, x, y, owner);
      (forall id :: id in ps && id != owner ==> r[id].score == ps[id].score) &&
      (owner in ps ==>
         r[owner].score == ps[owner].score + (if owner != "" then BlastVictims(ps, order, k, x, y, owner) else 0))
    decreases |order| - k
  {
    if k < |order| {
      var v := order[k];
      var ps1 := ExplodeAt(ps, v, x, y, owner);
      assert ExplodeFrom(ps, order, k, x, y, owner) == ExplodeFrom(ps1, order, k + 1, x, y, owner);
      ExplodeFromScores(ps1, order, k + 1, x, y, owner);
      ExplodeAtScores(ps, v, x, y, owner);
      BlastVictimsStep(ps, order, k, x, y, owner);
    }
  }

  /** Explosions treat every player on its own: apart from the score, each
      ends exactly as `Blast` says, whatever its place in the iteration order;
      no score but the owner's changes, and the owner gains one point for each
      other player the blast kills (none when the owner has left). */
  lemma ExplosionOutcome(ps: Players, order: seq<Id>, x: real, y: real, owner: Id)
    requires WellFormed(ps, order)
    ensures var r := Explode(ps, order, x, y, owner);
      (forall id :: id in ps ==> r[id].(score := ps[id].score) == Blast(ps[id], x, y)) &&
      (forall id :: id in ps && id != owner ==> r[id].score == ps[id].score) &&
      (owner in ps ==>
         r[owner].score == ps[owner].score + (if owner != "" then BlastVictims(ps, order, 0, x, y, owner) else 0))
  {
    ExplodeFromFates(ps, order, 0, x, y, owner);
    ExplodeFromScores(ps, order, 0, x, y, owner);
    assert order[0..] == order;
  }

  // ---------------------------------------------------------------------------
  // Laser hits

  /** `handleLaserHit(victim, shooter)`: a missing, dead or invulnerable victim
      is unaffected; a parrying victim spends its parry and kills the shooter
      instead; any other victim dies, credited to the shooter. */
  function HandleLaserHit(ps: Players, victim: Id, shooter: Id): (r: Players)
    ensures SameBodies(ps, r)
  {
    if victim !in ps || ps[victim].isDead then ps
    else if ps[victim].invulnerableTimer > 0 then ps
    else if ps[victim].activeItem == Some(Parry) then
      var ps1 := ps[victim := ps[victim].(activeItem := None)];
      assert SameBodies(ps, ps1);
      if shooter in ps1 then SameBodiesTrans(ps, ps1, KillPlayer(ps1, shooter, victim)); KillPlayer(ps1, shooter, victim)
      else ps1
    else KillPlayer(ps, victim, shooter)
  }

  /** The three outcomes of a laser hit. */
  lemma LaserHitOutcome(ps: Players, victim: Id, shooter: Id)
    ensures var r := HandleLaserHit(ps, victim, shooter);
      victim !in ps || ps[victim].isDead || ps[victim].invulnerableTimer > 0 ==> r == ps
    ensures var r := HandleLaserHit(ps, victim, shooter);
      victim in ps && !ps[victim].isDead && ps[victim].invulnerableTimer <= 0 &&
      ps[victim].activeItem == Some(Parry) ==>
        r[victim].activeItem == None &&
        (shooter in ps ==> r[shooter].isDead && r[shooter].hp == 0 && r[shooter].respawnTimer == RESPAWN_TICKS) &&
        (shooter != victim ==> r[victim] == ps[victim].(activeItem := None, score := r[victim].score)) &&
        (forall id :: id in ps && id != victim && id != shooter ==> r[id] == ps[id]) &&
        (shooter in ps && shooter != victim ==>
           !r[victim].isDead && r[victim].score == ps[victim].score + (if victim != "" then 1 else 0)) &&
        (shooter !in ps ==> r == ps[victim := ps[victim].(activeItem := None)])
    ensures var r := HandleLaserHit(ps, victim, shooter);
      victim in ps && !ps[victim].isDead && ps[victim].invulnerableTimer <= 0 &&
      ps[victim].activeItem != Some(Parry) ==>
        r[victim].isDead && r[victim].hp == 0 && r[victim].respawnTimer == RESPAWN_TICKS &&
        (forall id :: id in ps && id != victim ==>
           r[id].score == ps[id].score + (if id == shooter && Awards(ps, shooter, victim) then 1 else 0))
  {
  }

  // ---------------------------------------------------------------------------
  // Firing

  /** The power-up in effect once firing has broken stealth. */
  function FiringItem(p: Player): Option<PowerUp> {
    if p.invisible then None else p.activeItem
  }

  /** The laser branch of `handleShooting`, for the shooter's record `p`
      after the stealth break.  The ray cast never reports the shooter
      itself, and a hit counts only with a non-empty id, so a `target` naming
      the shooter or the empty id strikes nobody. */
  function LaserShot(ps: Players, id: Id, p: Player, target: Option<Id>): (r: Players)
    requires id in ps && p.x == ps[id].x && p.y == ps[id].y && p.inventory == ps[id].inventory
    ensures SameBodies(ps, r)
    ensures !(target.Some? && target.value != id && target.value != "") ==>
              r == ps[id := p.(reloadTimer := LASER_RELOAD)]
    ensures forall q :: q in ps && q != id && (target.None? || q != target.value) ==> r[q] == ps[q]
  {
    var ps1 := ps[id := p.(reloadTimer := LASER_RELOAD)];
    assert SameBodies(ps, ps1);
    if target.Some? && target.value != id && target.value != "" then
      var r := HandleLaserHit(ps1, target.value, id);
      SameBodiesTrans(ps, ps1, r);
      r
    else ps1
  }

  /** The bullet branch of `handleShooting`. */
  function BulletShot(ps: Players, bs: seq<Bullet>, id: Id, p: Player, aim: Dir, bulletId: string)
    : (r: (Players, seq<Bullet>))
    requires id in ps && p.x == ps[id].x && p.y == ps[id].y && p.inventory == ps[id].inventory
    ensures SameBodies(ps, r.0)
  {
    var reload := if p.activeItem == Some(Autofire) then AUTOFIRE_RELOAD else RELOAD_TIME;
    var speed := if p.activeItem == Some(Speed) then BULLET_SPEED * 1.5 else BULLET_SPEED;
    var bounces := if p.activeItem == Some(Bounce) then 3
                   else if p.activeItem == Some(Explosion) then 0 else 1;
    var kind := if p.activeItem == Some(Explosion) then Explosive else Normal;
    var b := Bullet(bulletId, p.x + aim.cos * MUZZLE_OFFSET, p.y + aim.sin * MUZZLE_OFFSET,
                    aim.cos * speed, aim.sin * speed, kind, bounces, id);
    (ps[id := p.(reloadTimer := reload)], bs + [b])
  }

  /** `handleShooting` for player `id`, aiming along `aim`.  `target` is the
      player the laser beam strikes, if any (ray casting is outside the model),
      and `bulletId` names the new bullet.  Returns the players and bullets. */
  function HandleShooting(ps: Players, bs: seq<Bullet>, id: Id, aim: Dir, target: Option<Id>, bulletId: string)
    : (r: (Players, seq<Bullet>))
    requires id in ps
    ensures SameBodies(ps, r.0)
    ensures ps[id].activeItem == Some(Rush) ==> r == (ps, bs)
  {
    var p := ps[id];
    if p.activeItem == Some(Rush) then (ps, bs)
    else
      var p1 := if p.invisible then p.(invisible := false, activeItem := None) else p;
      if p1.activeItem == Some(Laser) then (LaserShot(ps, id, p1, target), bs)
      else BulletShot(ps, bs, id, p1, aim, bulletId)
  }

  /** How a shot is set up: under rush nothing happens (that is in
      `HandleShooting`'s own contract); otherwise stealth is broken, the reload
      timer becomes 60 for the laser, 15 under autofire and 30 otherwise, and a
      laser shot adds no bullet. */
  lemma ShotSetup(ps: Players, bs: seq<Bullet>, id: Id, aim: Dir, target: Option<Id>, bulletId: string)
    requires id in ps && ps[id].activeItem != Some(Rush)
    ensures var r := HandleShooting(ps, bs, id, aim, target, bulletId);
      var item := FiringItem(ps[id]);
      r.0[id].reloadTimer == (if item == Some(Laser) then LASER_RELOAD
                              else if item == Some(Autofire) then AUTOFIRE_RELOAD
                              else RELOAD_TIME) &&
      (ps[id].invisible ==> !r.0[id].invisible && r.0[id].activeItem == None) &&
      (item == Some(Laser) ==> r.1 == bs)
  {
    var p := ps[id];
    var p1 := if p.invisible then p.(invisible := false, activeItem := None) else p;
    if p1.activeItem == Some(Laser) {
      assert !p.invisible;
      assert HandleShooting(ps, bs, id, aim, target, bulletId).0 == LaserShot(ps, id, p1, target);
    }
  }

  /** A shot other than the laser changes only the shooter's reload timer
      and stealth, and appends one bullet with its owner, its position 20
      units ahead, its speed (7, or 10.5 under speed) and its bounce budget
      (3 under bounce, 0 for an explosive shot, 1 otherwise). */
  lemma ShotBullet(ps: Players, bs: seq<Bullet>, id: Id, aim: Dir, target: Option<Id>, bulletId: string)
    requires id in ps && ps[id].activeItem != Some(Rush) && FiringItem(ps[id]) != Some(Laser)
    ensures var r := HandleShooting(ps, bs, id, aim, target, bulletId);
      var item := FiringItem(ps[id]);
      r.0 == ps[id := ps[id].(reloadTimer := r.0[id].reloadTimer, invisible := false, activeItem := item)] &&
      |r.1| == |bs| + 1 && r.1[..|bs|] == bs &&
      var b := r.1[|bs|];
      var speed := if item == Some(Speed) then BULLET_SPEED * 1.5 else BULLET_SPEED;
      b.ownerId == id && b.id == bulletId &&
      b.x == ps[id].x + aim.cos * MUZZLE_OFFSET && b.y == ps[id].y + aim.sin * MUZZLE_OFFSET &&
      b.vx == aim.cos * speed && b.vy == aim.sin * speed &&
      b.bounces == (if item == Some(Bounce) then 3 else if item == Some(Explosion) then 0 else 1) &&
      b.kind == (if item == Some(Explosion) then Explosive else Normal)
  {
    var r := HandleShooting(ps, bs, id, aim, target, bulletId);
    assert (bs + [r.1[|bs|]])[..|bs|] == bs;
  }

  // ---------------------------------------------------------------------------
  // Bullets against players

  /** Is live player `id`, not the bullet's owner, within hit distance? */
  predicate Hits(ps: Players, id: Id, b: Bullet) {
    id in ps && !ps[id].isDead && b.ownerId != id &&
    DistSq(b.x, b.y, ps[id].x, ps[id].y) < HIT_DIST_SQ
  }

  /** The branch a hit takes, tested in the server's order. */
  datatype HitKind = Detonates | Parried | Shielded | Ignored | Kills

  function KindOfHit(p: Player, b: Bullet): HitKind {
    if b.kind == Explosive then Detonates
    else if p.activeItem == Some(Parry) then Parried
    else if p.activeItem == Some(Shield) then Shielded
    else if p.invulnerableTimer > 0 then Ignored
    else Kills
  }

  /** The parried bullet flies back: velocity negated, owned by the parrying
      player, a budget of two bounces, nudged two steps along its new course. */
  function Reflect(b: Bullet, newOwner: Id): (r: Bullet)
    ensures r.vx == -b.vx && r.vy == -b.vy
    ensures r.x == b.x + 2.0 * r.vx && r.y == b.y + 2.0 * r.vy
    ensures r.ownerId == newOwner && r.bounces == PARRY_BOUNCES
    ensures r.id == b.id && r.kind == b.kind
  {
    var v := b.(vx := -b.vx, vy := -b.vy, ownerId := newOwner, bounces := PARRY_BOUNCES);
    v.(x := v.x + v.vx * 2.0, y := v.y + v.vy * 2.0)
  }

  /** What a hit of `b` on player `id` does to the players. */
  function ApplyHit(ps: Players, order: seq<Id>, id: Id, b: Bullet): (r: Players)
    requires Covers(ps, order) && id in ps
    ensures SameBodies(ps, r)
  {
    var p := ps[id];
    match KindOfHit(p, b)
    case Detonates => Explode(ps, order, b.x, b.y, b.ownerId)
    case Parried => ps[id := p.(activeItem := None)]
    case Shielded => ps[id := p.(activeItem := None, invulnerableTimer := BULLET_SHIELD_TICKS)]
    case Ignored => ps
    case Kills =>
      var p1 := if p.invisible then p.(invisible := false, activeItem := None) else p;
      KillPlayer(ps[id := p1], id, b.ownerId)
  }

  /** The inner loop over the players for one bullet, from the `k`-th player
      on, with every consuming outcome ending the loop.  A parry does not end
      it: the reflected bullet goes on against the remaining players, as in the
      server.  Returns the players and the bullet, if it survives. */
  function ResolveFrom(ps: Players, order: seq<Id>, k: nat, b: Bullet): (r: (Players, Option<Bullet>))
    requires Covers(ps, order) && k <= |order|
    ensures SameBodies(ps, r.0)
    decreases |order| - k
  {
    if k == |order| then (ps, Some(b))
    else
      var id := order[k];
      if !Hits(ps, id, b) then ResolveFrom(ps, order, k + 1, b)
      else if KindOfHit(ps[id], b) == Parried then
        ResolveFrom(ApplyHit(ps, order, id, b), order, k + 1, Reflect(b, id))
      else (ApplyHit(ps, order, id, b), None)
  }

  /** Puts the outcome for the bullet at index `i` back: the updated bullet in
      its place, or the bullet cut out. */
  function PutBack(bs: seq<Bullet>, i: nat, ob: Option<Bullet>): (r: seq<Bullet>)
    requires i < |bs|
    ensures |r| == if ob.Some? then |bs| else |bs| - 1
    ensures forall j :: 0 <= j < i ==> r[j] == bs[j]
    ensures ob.Some? ==> r[i] == ob.value && forall j :: i < j < |bs| ==> r[j] == bs[j]
    ensures ob.None? ==> forall j :: i <= j < |r| ==> r[j] == bs[j + 1]
  {
    if ob.Some? then bs[i := ob.value] else bs[..i] + bs[i + 1..]
  }

  /** The reverse-index loop over the bullets, from index `i` down. */
  function CombatFrom(ps: Players, order: seq<Id>, bs: seq<Bullet>, i: int): (r: (Players, seq<Bullet>))
    requires Covers(ps, order) && -1 <= i < |bs|
    ensures SameBodies(ps, r.0)
    ensures IsSuffix(bs[i + 1..], r.1)
    decreases i + 1
  {
    if i < 0 then (ps, bs)
    else
      var rb := ResolveFrom(ps, order, 0, bs[i]);
      var bs1 := PutBack(bs, i, rb.1);
      var r := CombatFrom(rb.0, order, bs1, i - 1);
      PutBackSuffix(bs, i, rb.1, r.1);
      r
  }

  /** The bullet-versus-player pass, one outcome per bullet. */
  function CombatPass(ps: Players, order: seq<Id>, bs: seq<Bullet>): (r: (Players, seq<Bullet>))
    requires Covers(ps, order)
    ensures SameBodies(ps, r.0)
  {
    CombatFrom(ps, order, bs, |bs| - 1)
  }

  // ---------------------------------------------------------------------------
  // The pass as the server writes it

  /** JavaScript `bullets.splice(i, 1)`: removes index `i` when there is one. */
  function Splice(bs: seq<Bullet>, i: nat): (r: seq<Bullet>)
    ensures |r| == if i < |bs| then |bs| - 1 else |bs|
    ensures forall j :: 0 <= j < |r| ==> r[j] == if j < i then bs[j] else bs[j + 1]
  {
    if i < |bs| then bs[..i] + bs[i + 1..] else bs
  }

  /** The inner loop exactly as the server runs it: the shield and
      invulnerable branches cut index `i` and then `continue`, so the same
      bullet `b` is tested against the remaining players and a later hit cuts
      index `i` again, whatever bullet then sits there.  `attached` records
      whether `b` is still the bullet at index `i` (a parry after the cut
      changes only the detached record). */
  function ResolveAsWrittenFrom(ps: Players, order: seq<Id>, k: nat, b: Bullet, bs: seq<Bullet>, i: nat,
                                attached: bool): (r: (Players, seq<Bullet>))
    requires Covers(ps, order) && k <= |order|
    ensures SameBodies(ps, r.0)
    ensures |bs| >= i ==> |r.1| >= i
    decreases |order| - k
  {
    if k == |order| then (ps, bs)
    else
      var id := order[k];
      if !Hits(ps, id, b) then ResolveAsWrittenFrom(ps, order, k + 1, b, bs, i, attached)
      else
        var ps1 := ApplyHit(ps, order, id, b);
        match KindOfHit(ps[id], b)
        case Detonates => (ps1, Splice(bs, i))
        case Parried =>
          var b1 := Reflect(b, id);
          ResolveAsWrittenFrom(ps1, order, k + 1, b1, if attached && i < |bs| then bs[i := b1] else bs, i, attached)
        case Shielded => ResolveAsWrittenFrom(ps1, order, k + 1, b, Splice(bs, i), i, false)
        case Ignored => ResolveAsWrittenFrom(ps1, order, k + 1, b, Splice(bs, i), i, false)
        case Kills => (ps1, Splice(bs, i))
  }

  /** One player's turn in the server's inner loop. */
  lemma ResolveAsWrittenStep(ps: Players, order: seq<Id>, k: nat, b: Bullet, bs: seq<Bullet>, i: nat, attached: bool)
    requires Covers(ps, order) && k < |order|
    ensures var id := order[k];
      ResolveAsWrittenFrom(ps, order, k, b, bs, i, attached) ==
        if !Hits(ps, id, b) then ResolveAsWrittenFrom(ps, order, k + 1, b, bs, i, attached)
        else
          var ps1 := ApplyHit(ps, order, id, b);
          var kind := KindOfHit(ps[id], b);
          if kind == Detonates || kind == Kills then (ps1, Splice(bs, i))
          else if kind == Parried then
            var b1 := Reflect(b, id);
            ResolveAsWrittenFrom(ps1, order, k + 1, b1, if attached && i < |bs| then bs[i := b1] else bs, i, attached)
          else ResolveAsWrittenFrom(ps1, order, k + 1, b, Splice(bs, i), i, false)
  {
  }

  function CombatAsWrittenFrom(ps: Players, order: seq<Id>, bs: seq<Bullet>, i: int): (r: (Players, seq<Bullet>))
    requires Covers(ps, order) && -1 <= i < |bs|
    ensures SameBodies(ps, r.0)
    decreases i + 1
  {
    if i < 0 then (ps, bs)
    else
      var rb := ResolveAsWrittenFrom(ps, order, 0, bs[i], bs, i, true);
      CombatAsWrittenFrom(rb.0, order, rb.1, i - 1)
  }

  /** The bullet-versus-player loop of the server, double cut included. */
  function CombatPassAsWritten(ps: Players, order: seq<Id>, bs: seq<Bullet>): (r: (Players, seq<Bullet>))
    requires Covers(ps, order)
    ensures SameBodies(ps, r.0)
  {
    CombatAsWrittenFrom(ps, order, bs, |bs| - 1)
  }

  // ---------------------------------------------------------------------------
  // Facts about the bullet pass

  /** A bullet out of hit distance of every player. */
  predicate Far(ps: Players, b: Bullet) {
    forall id :: id in ps ==> DistSq(b.x, b.y, ps[id].x, ps[id].y) >= HIT_DIST_SQ
  }

  lemma {:induction false} ResolveFarBullet(ps: Players, order: seq<Id>, k: nat, b: Bullet)
    requires Covers(ps, order) && k <= |order| && Far(ps, b)
    ensures ResolveFrom(ps, order, k, b) == (ps, Some(b))
    decreases |order| - k
  {
    if k < |order| {
      assert !Hits(ps, order[k], b);
      ResolveFarBullet(ps, order, k + 1, b);
    }
  }

  predicate IsSuffix(u: seq<Bullet>, s: seq<Bullet>) {
    |u| <= |s| && s[|s| - |u|..] == u
  }

  lemma SuffixTrans(u: seq<Bullet>, t: seq<Bullet>, s: seq<Bullet>)
    requires IsSuffix(u, t) && IsSuffix(t, s)
    ensures IsSuffix(u, s)
  {
    assert s[|s| - |u|..] == s[|s| - |t|..][|t| - |u|..];
  }

  /** Putting an outcome back at index `i` leaves the bullets above `i` as
      they are, whatever the rest of the pass then does below. */
  lemma PutBackSuffix(bs: seq<Bullet>, i: nat, ob: Option<Bullet>, rest: seq<Bullet>)
    requires i < |bs| && IsSuffix(PutBack(bs, i, ob)[i..], rest)
    ensures IsSuffix(bs[i + 1..], rest)
  {
    var bs1 := PutBack(bs, i, ob);
    if ob.Some? {
      assert bs1[i..] == [ob.value] + bs[i + 1..];
    } else {
      assert bs1[i..] == bs[i + 1..];
    }
    assert IsSuffix(bs[i + 1..], bs1[i..]);
    SuffixTrans(bs[i + 1..], bs1[i..], rest);
  }

  lemma {:induction false} CombatFromKeepsFarBullet(ps: Players, order: seq<Id>, bs: seq<Bullet>, i: int, j: nat)
    requires Covers(ps, order) && -1 <= i < |bs| && j <= i
    requires Far(ps, bs[j])
    ensures bs[j] in CombatFrom(ps, order, bs, i).1
    decreases i + 1
  {
    var rb := ResolveFrom(ps, order, 0, bs[i]);
    var bs1 := PutBack(bs, i, rb.1);
    if j == i {
      ResolveFarBullet(ps, order, 0, bs[i]);
      assert bs1 == bs;
      var r := CombatFrom(ps, order, bs, i - 1).1;
      assert bs[j] == bs[i..][0];
      assert bs[j] in r[|r| - |bs[i..]|..];
    } else {
      assert bs1[j] == bs[j];
      CombatFromKeepsFarBullet(rb.0, order, bs1, i - 1, j);
    }
  }

  /** One outcome per bullet: a bullet out of reach of every player comes
      through the pass untouched, whatever happens to the others. */
  lemma CombatKeepsFarBullets(ps: Players, order: seq<Id>, bs: seq<Bullet>)
    requires Covers(ps, order)
    ensures forall j :: 0 <= j < |bs| && Far(ps, bs[j]) ==> bs[j] in CombatPass(ps, order, bs).1
  {
    forall j | 0 <= j < |bs| && Far(ps, bs[j])
      ensures bs[j] in CombatPass(ps, order, bs).1
    {
      CombatFromKeepsFarBullet(ps, order, bs, |bs| - 1, j);
    }
  }

  /** A shield spends itself on the first bullet: the player loses it and is
      invulnerable for 90 ticks, and a second bullet then changes nothing.  A
      blast on a shielded player does the same with 60 ticks, and a second
      blast leaves it be. */
  lemma ShieldAbsorbs(ps: Players, order: seq<Id>, id: Id, b: Bullet, b2: Bullet, x: real, y: real)
    requires Covers(ps, order) && id in ps && b.kind == Normal && b2.kind == Normal
    requires ps[id].activeItem == Some(Shield)
    ensures var r := ApplyHit(ps, order, id, b);
      r == ps[id := ps[id].(activeItem := None, invulnerableTimer := BULLET_SHIELD_TICKS)] &&
      ApplyHit(r, order, id, b2) == r
    ensures !ps[id].isDead && DistSq(ps[id].x, ps[id].y, x, y) < EXPLOSION_RADIUS_SQ && ps[id].invulnerableTimer <= 0 ==>
      Blast(ps[id], x, y) == ps[id].(activeItem := None, invulnerableTimer := BLAST_SHIELD_TICKS) &&
      Blast(Blast(ps[id], x, y), x, y) == Blast(ps[id], x, y)
  {
  }

  /** A parrying player spends the parry, the bullet comes back as its own,
      and if the reflected bullet then kills the original shooter the kill is
      credited to the parrying player. */
  lemma ParryTurnsBullet(ps: Players, order: seq<Id>, v: Id, b: Bullet)
    requires Covers(ps, order) && v in ps && b.ownerId in ps && b.ownerId != v && v != ""
    requires KindOfHit(ps[v], b) == Parried
    ensures var r := ApplyHit(ps, order, v, b);
      var b1 := Reflect(b, v);
      r[v].activeItem == None && b1.ownerId == v && b1.bounces == PARRY_BOUNCES &&
      (KindOfHit(r[b.ownerId], b1) == Kills ==>
         ApplyHit(r, order, b.ownerId, b1)[b.ownerId].isDead &&
         ApplyHit(r, order, b.ownerId, b1)[v].score == ps[v].score + 1)
  {
  }

  /** A bullet that kills credits its owner with exactly one point, and no
      one when the owner has left or the victim is the owner. */
  lemma BulletKillCredit(ps: Players, order: seq<Id>, id: Id, b: Bullet)
    requires Covers(ps, order) && id in ps && KindOfHit(ps[id], b) == Kills
    ensures var r := ApplyHit(ps, order, id, b);
      r[id].isDead && r[id].hp == 0 && r[id].respawnTimer == RESPAWN_TICKS &&
      forall j :: j in ps && j != id ==>
        r[j].score == ps[j].score + (if j == b.ownerId && Awards(ps, b.ownerId, id) then 1 else 0)
  {
  }

  /** No bullet has a negative bounce budget. */
  predicate BudgetsOk(bs: seq<Bullet>) {
    forall j :: 0 <= j < |bs| ==> bs[j].bounces >= 0
  }

  lemma {:induction false} ResolveKeepsBudget(ps: Players, order: seq<Id>, k: nat, b: Bullet)
    requires Covers(ps, order) && k <= |order| && b.bounces >= 0
    ensures var r := ResolveFrom(ps, order, k, b); r.1.Some? ==> r.1.value.bounces >= 0
    decreases |order| - k
  {
    if k < |order| {
      var id := order[k];
      if !Hits(ps, id, b) {
        ResolveKeepsBudget(ps, order, k + 1, b);
      } else if KindOfHit(ps[id], b) == Parried {
        ResolveKeepsBudget(ApplyHit(ps, order, id, b), order, k + 1, Reflect(b, id));
      }
    }
  }

  lemma {:induction false} CombatFromKeepsBudgets(ps: Players, order: seq<Id>, bs: seq<Bullet>, i: int)
    requires Covers(ps, order) && -1 <= i < |bs| && BudgetsOk(bs)
    ensures BudgetsOk(CombatFrom(ps, order, bs, i).1)
    decreases i + 1
  {
    if i >= 0 {
      var rb := ResolveFrom(ps, order, 0, bs[i]);
      ResolveKeepsBudget(ps, order, 0, bs[i]);
      var bs1 := PutBack(bs, i, rb.1);
      assert BudgetsOk(bs1) by {
        forall j | 0 <= j < |bs1| ensures bs1[j].bounces >= 0 {
          if rb.1.None? && j >= i {
            assert bs1[j] == bs[j + 1];
          }
        }
      }
      CombatFromKeepsBudgets(rb.0, order, bs1, i - 1);
    }
  }

  /** The pass never leaves a bullet with a negative bounce budget: survivors
      keep theirs and a parried bullet gets two. */
  lemma CombatKeepsBudgets(ps: Players, order: seq<Id>, bs: seq<Bullet>)
    requires Covers(ps, order) && BudgetsOk(bs)
    ensures BudgetsOk(CombatPass(ps, order, bs).1)
  {
    CombatFromKeepsBudgets(ps, order, bs, |bs| - 1);
  }

  lemma SpliceKeepsBudgets(bs: seq<Bullet>, i: nat)
    requires BudgetsOk(bs)
    ensures BudgetsOk(Splice(bs, i))
  {
  }

  /** The server's inner loop keeps every bounce budget non-negative: it
      only cuts bullets out, or writes back a parried one with two bounces. */
  lemma {:induction false} ResolveAsWrittenKeepsBudgets(ps: Players, order: seq<Id>, k: nat, b: Bullet,
                                                        bs: seq<Bullet>, i: nat, attached: bool)
    requires Covers(ps, order) && k <= |order| && BudgetsOk(bs)
    ensures BudgetsOk(ResolveAsWrittenFrom(ps, order, k, b, bs, i, attached).1)
    decreases |order| - k
  {
    if k < |order| {
      var id := order[k];
      if !Hits(ps, id, b) {
        ResolveAsWrittenKeepsBudgets(ps, order, k + 1, b, bs, i, attached);
      } else {
        var ps1 := ApplyHit(ps, order, id, b);
        var kind := KindOfHit(ps[id], b);
        SpliceKeepsBudgets(bs, i);
        if kind == Parried {
          var b1 := Reflect(b, id);
          var bs1 := if attached && i < |bs| then bs[i := b1] else bs;
          assert BudgetsOk(bs1);
          ResolveAsWrittenKeepsBudgets(ps1, order, k + 1, b1, bs1, i, attached);
        } else if kind == Shielded || kind == Ignored {
          ResolveAsWrittenKeepsBudgets(ps1, order, k + 1, b, Splice(bs, i), i, false);
        }
      }
    }
  }

  lemma {:induction false} CombatAsWrittenFromKeepsBudgets(ps: Players, order: seq<Id>, bs: seq<Bullet>, i: int)
    requires Covers(ps, order) && -1 <= i < |bs| && BudgetsOk(bs)
    ensures BudgetsOk(CombatAsWrittenFrom(ps, order, bs, i).1)
    decreases i + 1
  {
    if i >= 0 {
      var rb := ResolveAsWrittenFrom(ps, order, 0, bs[i], bs, i, true);
      ResolveAsWrittenKeepsBudgets(ps, order, 0, bs[i], bs, i, true);
      CombatAsWrittenFromKeepsBudgets(rb.0, order, rb.1, i - 1);
    }
  }

  /** The server's pass, double cut and all, never leaves a bullet with a
      negative bounce budget. */
  lemma CombatAsWrittenKeepsBudgets(ps: Players, order: seq<Id>, bs: seq<Bullet>)
    requires Covers(ps, order) && BudgetsOk(bs)
    ensures BudgetsOk(CombatPassAsWritten(ps, order, bs).1)
  {
    CombatAsWrittenFromKeepsBudgets(ps, order, bs, |bs| - 1);
  }

  /** A live tank at `(x, y)` with `item` in effect and nothing else going on. */
  function Tank(x: real, y: real, item: Option<PowerUp>): Player {
    Player(x, y, 0.0, false, 1, 0, 0, [None, None, None], item, 0, 0, 0, false,
           Input(false, false, false, false, false, false, false))
  }

  /** A concrete world for the double cut: `A` is shielded, `B` stands
      10 units from it, `C` owns both bullets; `b0` sits between `A` and `B`
      and `b1` is far from everyone. */
  const DEMO_PLAYERS: Players := map["A" := Tank(100.0, 100.0, Some(Shield)),
                                     "B" := Tank(110.0, 100.0, None),
                                     "C" := Tank(400.0, 400.0, None)]
  const DEMO_ORDER: seq<Id> := ["A", "B", "C"]
  const DEMO_B0: Bullet := Bullet("b0", 105.0, 100.0, 7.0, 0.0, Normal, 1, "C")
  const DEMO_B1: Bullet := Bullet("b1", 600.0, 300.0, 7.0, 0.0, Normal, 1, "C")

  lemma DemoFarBulletUntouched()
    ensures Far(DEMO_PLAYERS, DEMO_B1)
    ensures ResolveAsWrittenFrom(DEMO_PLAYERS, DEMO_ORDER, 0, DEMO_B1, [DEMO_B0, DEMO_B1], 1, true)
         == (DEMO_PLAYERS, [DEMO_B0, DEMO_B1])
  {
    var ps, order, bs := DEMO_PLAYERS, DEMO_ORDER, [DEMO_B0, DEMO_B1];
    assert !Hits(ps, "C", DEMO_B1);
    assert ResolveAsWrittenFrom(ps, order, 2, DEMO_B1, bs, 1, true) == (ps, bs);
    assert !Hits(ps, "B", DEMO_B1);
    assert ResolveAsWrittenFrom(ps, order, 1, DEMO_B1, bs, 1, true) == (ps, bs);
    assert !Hits(ps, "A", DEMO_B1);
  }

  /** `b0` reaches the shielded `A` first: the shield is spent for 90 ticks
      of invulnerability. */
  lemma DemoShieldSpent()
    ensures Hits(DEMO_PLAYERS, "A", DEMO_B0) && KindOfHit(DEMO_PLAYERS["A"], DEMO_B0) == Shielded
    ensures ApplyHit(DEMO_PLAYERS, DEMO_ORDER, "A", DEMO_B0)
         == DEMO_PLAYERS["A" := Tank(100.0, 100.0, None).(invulnerableTimer := BULLET_SHIELD_TICKS)]
  {
  }

  /** The same `b0`, already cut, then reaches `B` and cuts index 0 again. */
  lemma DemoSecondCut()
    ensures var ps1 := DEMO_PLAYERS["A" := Tank(100.0, 100.0, None).(invulnerableTimer := BULLET_SHIELD_TICKS)];
      ResolveAsWrittenFrom(ps1, DEMO_ORDER, 1, DEMO_B0, [DEMO_B1], 0, false).1 == []
  {
    var ps1 := DEMO_PLAYERS["A" := Tank(100.0, 100.0, None).(invulnerableTimer := BULLET_SHIELD_TICKS)];
    assert Hits(ps1, "B", DEMO_B0) && KindOfHit(ps1["B"], DEMO_B0) == Kills;
    assert Splice([DEMO_B1], 0) == [];
  }

  lemma DemoNearBulletCutsTwice()
    ensures ResolveAsWrittenFrom(DEMO_PLAYERS, DEMO_ORDER, 0, DEMO_B0, [DEMO_B0, DEMO_B1], 0, true).1 == []
  {
    DemoShieldSpent();
    DemoSecondCut();
    assert Splice([DEMO_B0, DEMO_B1], 0) == [DEMO_B1];
  }

  /** The double cut, on the concrete world: `b0` hits the shielded `A`, is
      cut, goes on to hit `B` and cuts index 0 again, where the untouched
      `b1` now sits.  The pass as written loses `b1`, though it is out of
      reach of everyone; the corrected pass keeps it. */
  lemma DoubleCutLosesFarBullet()
    ensures Far(DEMO_PLAYERS, DEMO_B1)
    ensures CombatPassAsWritten(DEMO_PLAYERS, DEMO_ORDER, [DEMO_B0, DEMO_B1]).1 == []
    ensures DEMO_B1 in CombatPass(DEMO_PLAYERS, DEMO_ORDER, [DEMO_B0, DEMO_B1]).1
  {
    var ps, order, bs := DEMO_PLAYERS, DEMO_ORDER, [DEMO_B0, DEMO_B1];
    DemoFarBulletUntouched();
    DemoNearBulletCutsTwice();
    var r0 := ResolveAsWrittenFrom(ps, order, 0, DEMO_B0, bs, 0, true);
    assert CombatAsWrittenFrom(ps, order, bs, 1) == CombatAsWrittenFrom(ps, order, bs, 0);
    assert CombatAsWrittenFrom(ps, order, bs, 0) == CombatAsWrittenFrom(r0.0, order, r0.1, -1);
    CombatKeepsFarBullets(ps, order, bs);
  }

  // ---------------------------------------------------------------------------
  // Rush

  /** The rush rule for one pair: within reach, a rushing player kills a
      non-rushing one; two rushers, or two non-rushers, leave each other be. */
  function RushPair(ps: Players, a: Id, b: Id): (r: Players)
    requires a in ps && b in ps
    ensures SameBodies(ps, r)
    ensures forall id :: id in ps ==> r[id].activeItem == ps[id].activeItem
    ensures forall id :: id in ps && !ps[id].isDead && ps[id].activeItem == Some(Rush) ==> !r[id].isDead
    ensures forall id :: id in ps && ps[id].isDead ==> r[id] == ps[id]
    ensures forall id :: id in ps && !r[id].isDead ==> r[id] == ps[id].(score := r[id].score)
    ensures forall id :: id in ps && !ps[id].isDead && r[id].isDead ==>
              r[id] == ps[id].(isDead := true, hp := 0, respawnTimer := RESPAWN_TICKS)
    ensures forall id :: id in ps && ps[id].activeItem != Some(Rush) ==> r[id].score == ps[id].score
  {
    var p1 := ps[a];
    var p2 := ps[b];
    if p1.isDead || p2.isDead then ps
    else if DistSq(p1.x, p1.y, p2.x, p2.y) < RUSH_DIST_SQ then
      if p1.activeItem == Some(Rush) && p2.activeItem != Some(Rush) then KillPlayer(ps, b, a)
      else if p2.activeItem == Some(Rush) && p1.activeItem != Some(Rush) then KillPlayer(ps, a, b)
      else ps
    else ps
  }

  /** Inner loop of the rush pass: pairs `(i, j)` for `j` from `j` on. */
  function RushInner(ps: Players, order: seq<Id>, i: nat, j: nat): (r: Players)
    requires Covers(ps, order) && i < |order| && j <= |order|
    ensures SameBodies(ps, r)
    ensures forall id :: id in ps ==> r[id].activeItem == ps[id].activeItem
    ensures forall id :: id in ps && !ps[id].isDead && ps[id].activeItem == Some(Rush) ==> !r[id].isDead
    ensures forall id :: id in ps && ps[id].isDead ==> r[id] == ps[id]
    ensures forall id :: id in ps && !r[id].isDead ==> r[id] == ps[id].(score := r[id].score)
    ensures forall id :: id in ps && !ps[id].isDead && r[id].isDead ==>
              r[id] == ps[id].(isDead := true, hp := 0, respawnTimer := RESPAWN_TICKS)
    ensures forall id :: id in ps && ps[id].activeItem != Some(Rush) ==> r[id].score == ps[id].score
    decreases |order| - j
  {
    if j == |order| then ps
    else RushInner(RushPair(ps, order[i], order[j]), order, i, j + 1)
  }

  lemma RushInnerStep(ps: Players, order: seq<Id>, i: nat, j: nat)
    requires Covers(ps, order) && i < |order| && j < |order|
    ensures RushInner(ps, order, i, j) == RushInner(RushPair(ps, order[i], order[j]), order, i, j + 1)
  {
  }

  /** Outer loop of the rush pass, from index `i` on. */
  function RushOuter(ps: Players, order: seq<Id>, i: nat): (r: Players)
    requires Covers(ps, order) && i <= |order|
    ensures SameBodies(ps, r)
    ensures forall id :: id in ps ==> r[id].activeItem == ps[id].activeItem
    ensures forall id :: id in ps && !ps[id].isDead && ps[id].activeItem == Some(Rush) ==> !r[id].isDead
    ensures forall id :: id in ps && ps[id].isDead ==> r[id] == ps[id]
    ensures forall id :: id in ps && !r[id].isDead ==> r[id] == ps[id].(score := r[id].score)
    ensures forall id :: id in ps && !ps[id].isDead && r[id].isDead ==>
              r[id] == ps[id].(isDead := true, hp := 0, respawnTimer := RESPAWN_TICKS)
    ensures forall id :: id in ps && ps[id].activeItem != Some(Rush) ==> r[id].score == ps[id].score
    decreases |order| - i
  {
    if i == |order| then ps
    else RushOuter(RushInner(ps, order, i, i + 1), order, i + 1)
  }

  /** Every unordered pair of players, in the order of `Object.keys`. */
  function RushPass(ps: Players, order: seq<Id>): (r: Players)
    requires Covers(ps, order)
    ensures SameBodies(ps, r)
    ensures forall id :: id in ps ==> r[id].activeItem == ps[id].activeItem
    ensures forall id :: id in ps && !ps[id].isDead && ps[id].activeItem == Some(Rush) ==> !r[id].isDead
    ensures forall id :: id in ps && ps[id].isDead ==> r[id] == ps[id]
    ensures forall id :: id in ps && !r[id].isDead ==> r[id] == ps[id].(score := r[id].score)
    ensures forall id :: id in ps && !ps[id].isDead && r[id].isDead ==>
              r[id] == ps[id].(isDead := true, hp := 0, respawnTimer := RESPAWN_TICKS)
    ensures forall id :: id in ps && ps[id].activeItem != Some(Rush) ==> r[id].score == ps[id].score
  {
    RushOuter(ps, order, 0)
  }

  // The kills of the whole pass.

  /** `a` is a live rusher within reach of `b`, who does not rush. */
  predicate Threatens(ps: Players, a: Id, b: Id) {
    a in ps && b in ps && !ps[a].isDead &&
    ps[a].activeItem == Some(Rush) && ps[b].activeItem != Some(Rush) &&
    DistSq(ps[a].x, ps[a].y, ps[b].x, ps[b].y) < RUSH_DIST_SQ
  }

  /** A stage of the rush pass keeps bodies and power-ups, keeps the dead
      dead and live rushers alive; a threat then holds before the stage
      exactly when it holds after it, for a victim alive after it. */
  lemma ThreatAcross(ps: Players, q: Players, a: Id, b: Id)
    requires SameBodies(ps, q)
    requires forall id :: id in ps ==> q[id].activeItem == ps[id].activeItem
    requires forall id :: id in ps && !ps[id].isDead && ps[id].activeItem == Some(Rush) ==> !q[id].isDead
    requires forall id :: id in ps && ps[id].isDead ==> q[id].isDead
    ensures Threatens(ps, a, b) <==> Threatens(q, a, b)
  {
  }

  /** The pair rule applied to `a` and `b`, either way round, kills the
      threatened `b`. */
  lemma RushPairKills(ps: Players, x: Id, y: Id, a: Id, b: Id)
    requires x in ps && y in ps && Threatens(ps, a, b)
    requires (x == a && y == b) || (x == b && y == a)
    ensures RushPair(ps, x, y)[b].isDead
  {
    assert DistSq(ps[b].x, ps[b].y, ps[a].x, ps[a].y) == DistSq(ps[a].x, ps[a].y, ps[b].x, ps[b].y);
  }

  /** Whoever the pair rule kills was threatened by the other of the pair. */
  lemma RushPairVictim(ps: Players, x: Id, y: Id, id: Id)
    requires x in ps && y in ps && id in ps && !ps[id].isDead
    requires RushPair(ps, x, y)[id].isDead
    ensures Threatens(ps, x, id) || Threatens(ps, y, id)
  {
    assert DistSq(ps[y].x, ps[y].y, ps[x].x, ps[x].y) == DistSq(ps[x].x, ps[x].y, ps[y].x, ps[y].y);
  }

  /** The inner loop kills `b` when it reaches the pair of `a` and `b`. */
  lemma {:induction false} RushInnerKills(ps: Players, order: seq<Id>, i: nat, j: nat, k: nat, a: Id, b: Id)
    requires Covers(ps, order) && i < |order| && j <= k < |order|
    requires (order[i] == a && order[k] == b) || (order[i] == b && order[k] == a)
    requires Threatens(ps, a, b)
    ensures RushInner(ps, order, i, j)[b].isDead
    decreases k - j
  {
    var q := RushPair(ps, order[i], order[j]);
    RushInnerStep(ps, order, i, j);
    if j == k {
      RushPairKills(ps, order[i], order[j], a, b);
    } else {
      ThreatAcross(ps, q, a, b);
      RushInnerKills(q, order, i, j + 1, k, a, b);
    }
  }

  /** Whoever the inner loop kills was threatened by a player of the order. */
  lemma {:induction false} RushInnerVictim(ps: Players, order: seq<Id>, i: nat, j: nat, id: Id)
    requires Covers(ps, order) && i < |order| && j <= |order|
    requires id in ps && !ps[id].isDead && RushInner(ps, order, i, j)[id].isDead
    ensures exists a :: a in order && Threatens(ps, a, id)
    decreases |order| - j
  {
    if j < |order| {
      var q := RushPair(ps, order[i], order[j]);
      RushInnerStep(ps, order, i, j);
      if q[id].isDead {
        RushPairVictim(ps, order[i], order[j], id);
      } else {
        RushInnerVictim(q, order, i, j + 1, id);
        var a :| a in order && Threatens(q, a, id);
        ThreatAcross(ps, q, a, id);
      }
    } else {
      assert false;
    }
  }

  /** The outer loop kills `b` when it reaches the first of `a` and `b`. */
  lemma {:induction false} RushOuterKills(ps: Players, order: seq<Id>, i: nat, i0: nat, k: nat, a: Id, b: Id)
    requires Covers(ps, order) && i <= i0 < k < |order|
    requires (order[i0] == a && order[k] == b) || (order[i0] == b && order[k] == a)
    requires Threatens(ps, a, b)
    ensures RushOuter(ps, order, i)[b].isDead
    decreases i0 - i
  {
    var q := RushInner(ps, order, i, i + 1);
    assert RushOuter(ps, order, i) == RushOuter(q, order, i + 1);
    if i == i0 {
      RushInnerKills(ps, order, i, i + 1, k, a, b);
    } else {
      ThreatAcross(ps, q, a, b);
      RushOuterKills(q, order, i + 1, i0, k, a, b);
    }
  }

  /** Whoever the outer loop kills was threatened by a player of the order. */
  lemma {:induction false} RushOuterVictim(ps: Players, order: seq<Id>, i: nat, id: Id)
    requires Covers(ps, order) && i <= |order|
    requires id in ps && !ps[id].isDead && RushOuter(ps, order, i)[id].isDead
    ensures exists a :: a in order && Threatens(ps, a, id)
    decreases |order| - i
  {
    if i < |order| {
      var q := RushInner(ps, order, i, i + 1);
      assert RushOuter(ps, order, i) == RushOuter(q, order, i + 1);
      if q[id].isDead {
        RushInnerVictim(ps, order, i, i + 1, id);
      } else {
        RushOuterVictim(q, order, i + 1, id);
        var a :| a in order && Threatens(q, a, id);
        ThreatAcross(ps, q, a, id);
      }
    } else {
      assert false;
    }
  }

  /** Over any roster, a live player of the order ends the rush pass dead
      exactly when some player of the order is a live rusher within reach of
      it while it does not rush. */
  lemma RushPassDeaths(ps: Players, order: seq<Id>, id: Id)
    requires Covers(ps, order) && id in order && !ps[id].isDead
    ensures RushPass(ps, order)[id].isDead <==> exists a :: a in order && Threatens(ps, a, id)
  {
    if RushPass(ps, order)[id].isDead {
      RushOuterVictim(ps, order, 0, id);
    }
    if a :| a in order && Threatens(ps, a, id) {
      var ia :| 0 <= ia < |order| && order[ia] == a;
      var ib :| 0 <= ib < |order| && order[ib] == id;
      if ia < ib {
        RushOuterKills(ps, order, 0, ia, ib, a, id);
      } else {
        RushOuterKills(ps, order, 0, ib, ia, a, id);
      }
    }
  }

  /** With two players in reach of each other: exactly the non-rusher dies,
      credited to the rusher, when only one rushes; nothing happens when both
      or neither rush. */
  lemma RushTwoPlayers(ps: Players, a: Id, b: Id)
    requires a in ps && b in ps && a != b && a != "" && b != ""
    requires !ps[a].isDead && !ps[b].isDead
    requires DistSq(ps[a].x, ps[a].y, ps[b].x, ps[b].y) < RUSH_DIST_SQ
    ensures var r := RushPass(ps, [a, b]);
      (ps[a].activeItem == Some(Rush) && ps[b].activeItem != Some(Rush) ==>
         r[b].isDead && !r[a].isDead && r[a].score == ps[a].score + 1) &&
      (ps[b].activeItem == Some(Rush) && ps[a].activeItem != Some(Rush) ==>
         r[a].isDead && !r[b].isDead && r[b].score == ps[b].score + 1) &&
      ((ps[a].activeItem == Some(Rush)) == (ps[b].activeItem == Some(Rush)) ==> r == ps)
  {
    RushPassOfTwo(ps, a, b);
  }

  /** With two players the rush pass looks at their one pair. */
  lemma RushPassOfTwo(ps: Players, a: Id, b: Id)
    requires a in ps && b in ps
    ensures RushPass(ps, [a, b]) == RushPair(ps, a, b)
  {
    var order := [a, b];
    var q := RushPair(ps, a, b);
    assert RushInner(ps, order, 0, 1) == RushInner(q, order, 0, 2);
    assert RushOuter(q, order, 1) == RushOuter(RushInner(q, order, 1, 2), order, 2);
  }
}
