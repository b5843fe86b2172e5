# Tank arena server: the rules of one tick

This project models the authoritative game server of a multiplayer top-down
tank game and proves properties of it. The server keeps three stores:

- `PLAYERS`, a dictionary of tank records keyed by connection id;
- `bullets`, the live projectiles;
- `mapItems`, the power-ups lying on the map.

Sixty times a second it runs `updatePhysics` and then `updateGameLogic`. The
model covers these rules:

- the collision tests over the 32 x 24 tile grid;
- kills and scores;
- explosions and laser hits;
- firing;
- per-player timers, respawn, movement and the clamp to the box;
- the bullets' flight against the terrain;
- the bullet-versus-player pass, the rush pass and the pickup pass;
- the pickup spawner;
- the `equip` message.

Layout, one module per file:

- `collision.dfy` (`Collision`): the grid, its generation, and the point,
  corner and spawn tests.
- `entities.dfy` (`Entities`): the records, and the inputs a tick takes from
  outside the rules.
- `combat.dfy` (`Combat`): kills, explosions, laser hits, firing,
  bullets against players, and rush.
- `physics.dfy` (`Physics`): timers, respawn, movement, the player loop and
  the bullet loop.
- `pickups.dfy` (`Pickups`): spawning, picking up and equipping.
- `game.dfy` (`Game`): the tick as the composition of both halves, and what a
  tick keeps.
- `arena.dfy` (`Server`): class `Arena` holds the three stores as fields
  updated in place. Its methods are the server's routines with the server's
  loops:
  - `for ... in PLAYERS` over the join order;
  - reverse-index loops that cut bullets and pickups out of their
    sequences;
  - the respawn sampling loop and the inventory slot loop.

  Each method is proved to leave the stores exactly as the rule it
  implements says. That rule is a function of the old state, stated in the
  other modules, where its properties are proved.

The tick, in `Game` and in `Arena`, runs the server as written, including
the two faults listed under "## Findings": the vertical move tests
`canMove` with the server's arguments (`Physics.MoveAsWritten`), and the
bullet pass cuts a bullet twice (`Combat.CombatPassAsWritten`). The
corrected movement (`Physics.Move`) and the corrected pass
(`Combat.CombatPass`) stand beside them, with the properties the server
evidently intends proved of them.

Modelling choices:

- Players are a `map<Id, Player>`. Alongside it, `order: seq<Id>` is the
  order JavaScript's `for ... in` and `Object.keys` enumerate them, which is
  their join order.
- Positions, velocities and angles are `real`. `Math.floor` is `.Floor`.
- Everything a tick takes from outside the rules is a parameter of type
  `Env`:
  - the cosine and sine of a facing angle;
  - the player a laser beam strikes;
  - the candidate respawn points;
  - new bullet ids;
  - the spawner's random draws.
- The map generator takes its random draw per cell as a function.
- Two details of the server are kept as written:
  - A parried bullet goes on against the remaining players in the same
    pass.
  - An empty arena is not left unchanged by a tick, because the spawner may
    still add a pickup (`Game.EmptyArenaTick`).
- The server has only two bullet kinds, `normal` and `explosion`. A bounce
  power-up gives a normal bullet three bounces.
- Equipping a power-up other than rush leaves the buff timer running. So a
  power-up equipped while a rush is counting down is dropped when that
  countdown ends (`Pickups.Equip`).

## Model

| member | source | states |
|---|---|---|
| Collision.IsColliding | server/index.js:68-74 | definition: a point collides when its tile, by `Math.floor(v / 25)`, is off the 24 x 32 grid or a wall; its meaning is stated by `InsideArenaReadsMap` and `OutsideArenaCollides` |
| Collision.CanMove | server/index.js:76-86 | definition: moving towards smaller values tests the two low-side corners, towards larger values the two high-side corners, and no move is always allowed; its meaning is stated by `CanMoveKeepsCentreClear` |
| Collision.CanMoveY | server/index.js:76-86 | definition: the vertical counterpart of `canMove` testing the leading edge's two corners, the test line 212 evidently intends; its meaning is stated by `CanMoveYKeepsCentreClear` |
| Collision.IsSafeSpawn | server/index.js:88-96 | definition: the centre and the four points 10 units away along the diagonals are clear; its meaning is stated by `SafeSpawnClearsSquare` |
| Collision.GenerateMap | server/index.js:52-65 | the map has 24 rows of 32 cells; border cells are walls; an interior cell is a wall exactly when its draw is below 0.1; every cell is 0 or 1 |
| Collision.InsideArenaReadsMap | server/index.js:69-74 | inside the 800 x 600 arena a point's tile is on the grid, and the point collides exactly when that tile is a wall |
| Collision.OutsideArenaCollides | server/index.js:69-74 | every point off the 800 x 600 arena collides, its tile being off the grid |
| Collision.BorderConfines | server/index.js:52-74 | on a map walled all round, a clear point lies at least one tile inside the edge |
| Collision.SafeSpawnClearsSquare | server/index.js:88-96 | a safe spawn point keeps clear the whole 20 x 20 square around it, not only its centre and four corners |
| Collision.CanMoveKeepsCentreClear | server/index.js:76-86 | for a step of at most 15 units, a horizontal step that `canMove` allows from a clear centre ends on a clear centre |
| Collision.CanMoveYKeepsCentreClear | server/index.js:76-86 | the same guarantee for the vertical test with the corners of the vertical move's leading edge |
| Combat.Awards | server/index.js:154 | definition: a kill scores for a killer id that is non-empty, present and not the victim; used by `KillPlayer`'s contract |
| Combat.KillPlayer | server/index.js:149-157 | the victim is dead with 0 hp and a 180-tick respawn timer; the killer's score rises by exactly one when the killer is named, present and not the victim; no other field and no other score changes |
| Combat.Blast | server/index.js:105-116 | definition: dead, out of the 60-unit reach or invulnerable players are untouched, a shield is spent for 60 ticks, anyone else dies; used by `ExplodeAtOutcome` and `ExplosionOutcome` |
| Combat.ExplodeAt | server/index.js:103-116 | one iteration of the blast loop moves nobody and changes no inventory |
| Combat.ExplodeAtOutcome | server/index.js:103-116 | the player reached ends as `Blast` says: out of reach, dead or invulnerable unchanged; a shield spent for 60 ticks of invulnerability; otherwise dead. Only the owner's score changes, by one for a kill that counts |
| Combat.ExplodeFrom | server/index.js:102-117 | the blast loop moves nobody and changes no inventory |
| Combat.Explode | server/index.js:98-118 | `createExplosion` moves nobody and changes no inventory |
| Combat.ExplodeFromFates | server/index.js:102-117 | apart from scores, each player of the rest of the loop ends as `Blast` says, whatever the earlier iterations did |
| Combat.ExplodeFromScores | server/index.js:102-117 | no score but the owner's changes; the owner gains one point per other player the blast kills |
| Combat.ExplosionOutcome | server/index.js:98-118 | every player fares as `Blast` says whatever its place in the order; only the owner scores, one point per other victim; nobody scores when the owner has left |
| Combat.HandleLaserHit | server/index.js:313-326 | a laser hit moves nobody and changes no inventory |
| Combat.LaserHitOutcome | server/index.js:313-326 | a missing, dead or invulnerable victim leaves everything unchanged; a parrying victim loses the parry and nothing else but its score, the shooter dies with 0 hp and a 180-tick timer, credited to the victim, and every other player is unchanged; any other victim dies and only the shooter's score may rise, by one |
| Combat.LaserShot | server/index.js:271-288 | the laser branch moves nobody and changes no inventory; a target naming the shooter or the empty id strikes nobody, so only the shooter's reload timer, set to 60, changes; no player other than the shooter and the target changes |
| Combat.BulletShot | server/index.js:292-310 | the bullet branch moves nobody and changes no inventory |
| Combat.HandleShooting | server/index.js:258-311 | under rush nothing changes; firing moves nobody and changes no inventory |
| Combat.ShotSetup | server/index.js:259-272 | a stealthy shooter loses stealth and its power-up; the reload timer becomes 60 for the laser, 15 under autofire and 30 otherwise; a laser shot adds no bullet |
| Combat.ShotBullet | server/index.js:292-310 | a non-laser shot changes only the shooter's reload timer and stealth, and appends one bullet: owned by the shooter, 20 units ahead, speed 7 (10.5 under speed), 3 bounces under bounce, 0 for an explosive shot, 1 otherwise |
| Combat.Reflect | server/index.js:359-364 | a parried bullet has its velocity negated, belongs to the parrying player, has 2 bounces and is moved two steps along its new course |
| Combat.Hits | server/index.js:347-351 | definition: a live player other than the owner within 14 units of the bullet; used by the bullet-pass lemmas |
| Combat.KindOfHit | server/index.js:352-386 | definition: the branch taken in the server's order: explosion, parry, shield, invulnerable, else kill; used by `ApplyHit`'s outcome lemmas |
| Combat.ApplyHit | server/index.js:347-386 | a hit moves nobody and changes no inventory |
| Combat.ResolveFrom | server/index.js:345-388 | the loop over the players for one bullet moves nobody and changes no inventory |
| Combat.PutBack | server/index.js:354-385 | the list keeps its slots below `i`; a surviving bullet takes slot `i` and the slots above stay, or slot `i` is cut out and the slots above move down by one |
| Combat.CombatFrom | server/index.js:343-389 | the bullets above the loop's index come through it as they are |
| Combat.CombatPass | server/index.js:343-389 | the corrected bullet-versus-player pass moves nobody and changes no inventory |
| Combat.Splice | server/index.js:354-385 | `splice(i, 1)` keeps the slots below `i` and moves those above down by one when `i` is an index, and otherwise leaves the list as it is |
| Combat.ResolveAsWrittenFrom | server/index.js:345-388 | the server's inner loop, a shield or invulnerable cut followed by `continue` included, moves nobody and never shortens the list below the index |
| Combat.CombatAsWrittenFrom | server/index.js:343-389 | the server's outer loop moves nobody and changes no inventory |
| Combat.CombatPassAsWritten | server/index.js:343-389 | the server's pass moves nobody and changes no inventory |
| Combat.ResolveFarBullet | server/index.js:345-350 | a bullet out of hit distance of every player changes no one and survives unchanged |
| Combat.CombatFromKeepsFarBullet | server/index.js:343-389 | a bullet out of reach of everyone survives the rest of the corrected pass |
| Combat.CombatKeepsFarBullets | server/index.js:343-389 | one outcome per bullet: every bullet out of everyone's reach comes through the corrected pass |
| Combat.ShieldAbsorbs | server/index.js:369-374 | a shield spends itself on a bullet for 90 ticks of invulnerability, after which a second bullet changes nothing; a blast spends it for 60 ticks and a second blast changes nothing |
| Combat.ParryTurnsBullet | server/index.js:359-366 | a parry is spent and the bullet becomes the parrying player's with 2 bounces; if it then kills its old owner, the parrying player scores one point |
| Combat.BulletKillCredit | server/index.js:380-386 | a killing bullet leaves the victim dead with 0 hp and a 180-tick timer; only the owner's score rises, by one, and not when the owner has left or hit itself |
| Combat.ResolveKeepsBudget | server/index.js:345-388 | a surviving bullet never has a negative bounce budget |
| Combat.CombatFromKeepsBudgets | server/index.js:343-389 | the rest of the pass keeps every bounce budget non-negative |
| Combat.CombatKeepsBudgets | server/index.js:343-389 | the pass keeps every bounce budget non-negative |
| Combat.ResolveAsWrittenKeepsBudgets | server/index.js:345-388 | the server's inner loop, double cut included, keeps every bounce budget non-negative: it only cuts bullets out, or writes a parried one back with two bounces |
| Combat.CombatAsWrittenFromKeepsBudgets | server/index.js:343-389 | the rest of the server's pass keeps every bounce budget non-negative |
| Combat.CombatAsWrittenKeepsBudgets | server/index.js:343-389 | the server's pass keeps every bounce budget non-negative |
| Combat.DemoFarBulletUntouched | server/index.js:345-350 | in the example world the far bullet hits no one |
| Combat.DemoShieldSpent | server/index.js:369-373 | in the example world the near bullet hits the shielded player first and spends the shield |
| Combat.DemoSecondCut | server/index.js:375-385 | after the cut, the same bullet kills the next player and cuts index 0 a second time |
| Combat.DemoNearBulletCutsTwice | server/index.js:345-388 | the server's inner loop for the near bullet leaves no bullet at all |
| Combat.DoubleCutLosesFarBullet | server/index.js:369-378 | the server's pass loses a bullet that is out of reach of everyone; the corrected pass keeps it |
| Combat.RushPair | server/index.js:395-403 | a pair moves nobody, changes no power-up, never kills a live rusher and never touches a dead player; a survivor changes at most in score, a victim ends as `killPlayer` leaves it with its own score, and a non-rusher never scores |
| Combat.RushInner | server/index.js:394-404 | the inner loop keeps positions, inventories and power-ups, never kills a live rusher and never touches a dead player; a survivor changes at most in score, a victim ends with 0 hp and a 180-tick timer and its own score, and a non-rusher never scores |
| Combat.RushOuter | server/index.js:393-405 | the outer loop keeps positions, inventories and power-ups, never kills a live rusher and never touches a dead player; a survivor changes at most in score, a victim ends with 0 hp and a 180-tick timer and its own score, and a non-rusher never scores |
| Combat.RushPass | server/index.js:391-405 | the rush pass keeps positions, inventories and power-ups, never kills a live rusher and never touches a dead player; a survivor changes at most in score, a victim ends with 0 hp and a 180-tick timer and its own score, and a non-rusher never scores |
| Combat.RushPairKills | server/index.js:395-403 | the pair rule, with the two ids either way round, kills a non-rusher in reach of a live rusher |
| Combat.RushPairVictim | server/index.js:395-403 | whoever the pair rule kills was a live non-rusher in reach of the other, live, rusher |
| Combat.RushInnerKills | server/index.js:394-404 | the inner loop kills a threatened non-rusher once it reaches the pair |
| Combat.RushInnerVictim | server/index.js:394-404 | whoever the inner loop kills was threatened by a live rusher of the order |
| Combat.RushOuterKills | server/index.js:393-405 | the outer loop kills a threatened non-rusher once it reaches the first of the pair |
| Combat.RushOuterVictim | server/index.js:393-405 | whoever the outer loop kills was threatened by a live rusher of the order |
| Combat.RushPassDeaths | server/index.js:391-405 | over any roster, a live player of the join order ends the pass dead exactly when some player of the order is a live rusher within 30 units of it while it does not rush |
| Combat.RushTwoPlayers | server/index.js:397-403 | of two live players in reach, exactly the non-rusher dies when only one rushes, credited to the rusher; nothing changes when both or neither rush |
| Combat.RushPassOfTwo | server/index.js:392-405 | with two players the rush pass is their one pair |
| Physics.Timers | server/index.js:190-195 | each timer drops by one while positive and is otherwise unchanged; the power-up is dropped exactly when a positive buff timer reaches 0; nothing else changes |
| Physics.BuffExpiry | server/index.js:192-195 | a buff set for `n` ticks keeps its power-up for `n - 1` ticks and loses it on the `n`-th |
| Physics.TankSpeed | server/index.js:198-200 | the speed is 4.5 under speed, 6 under rush and 3 otherwise |
| Physics.Turn | server/index.js:214-216 | definition: the facing turns by 0.1 left or right per held arrow key; used by the movement contracts |
| Physics.StepX | server/index.js:211 | definition: the full horizontal step when `canMove(newX, p.y, p.x)` allows it, else the old column; its meaning is stated by `StepXKeepsCentreClear` |
| Physics.StepY | server/index.js:212 | definition: the corrected vertical step, by `CanMoveY`; its meaning is stated by `StepYKeepsCentreClear` |
| Physics.StepYAsWritten | server/index.js:212 | definition: the vertical step as written, `canMove(p.x, newY, p.y)`; `MoveAsWrittenEntersWall` shows what it lets through |
| Physics.Move | server/index.js:203-220 | the corrected movement changes only position and facing, turns by the arrow keys and ends in the box 20..780 x 20..580 |
| Physics.MoveAsWritten | server/index.js:203-220 | the server's movement changes only position and facing, turns by the arrow keys and ends in the box |
| Physics.StepXKeepsCentreClear | server/index.js:211 | the horizontal step keeps a clear centre clear and either stays put or moves its full step |
| Physics.StepYKeepsCentreClear | server/index.js:212 | the corrected vertical step keeps a clear centre clear and either stays put or moves its full step |
| Physics.MoveKeepsCentreClear | server/index.js:203-220 | on a walled map, a tank whose centre is clear still has a clear centre after moving; each axis stays put or moves its full step |
| Physics.MoveAsWrittenEntersWall | server/index.js:212 | the server's vertical step drives a tank at (80, 122) into a wall tile; the corrected step refuses it |
| Physics.SpawnIndex | server/index.js:177-182 | the respawn loop settles on the first safe candidate, or on the 50th when none is safe |
| Physics.ChooseSpawn | server/index.js:177-182 | the do-while sampling loop returns the candidate `SpawnIndex` names |
| Physics.RespawnIsSafe | server/index.js:177-182 | when any of the 50 candidates is safe, the respawn point is safe |
| Physics.DeadTick | server/index.js:166-187 | a dead player's respawn timer drops by one; when it runs out the player is back with 1 hp, no power-up, no stealth and 120 ticks of invulnerability, at the chosen point; nothing else changes |
| Physics.RespawnAfter | server/index.js:166-187 | a dead player with timer `n` stays dead for `n - 1` ticks and is back on the `n`-th |
| Physics.TickPlayer | server/index.js:163-226 | a dead player only counts down; a live one that does not fire only runs its timers and then moves as the server writes it (`MoveAsWritten`); the roster is kept |
| Physics.PlayersFrom | server/index.js:163-226 | the player loop keeps the roster |
| Physics.TickPlayerKeepsBox | server/index.js:166-225 | one player's tick leaves everyone in the box |
| Physics.PlayersFromKeepsBox | server/index.js:163-226 | the player loop leaves everyone in the box |
| Physics.TickPlayerKeepsStores | server/index.js:166-225 | one player's tick changes no inventory |
| Physics.PlayersFromKeepsStores | server/index.js:163-226 | the player loop changes no inventory |
| Physics.FlyX | server/index.js:232-240 | definition: the x move with detonation or bounce; its cases are stated by `FlyXCases` |
| Physics.FlyY | server/index.js:242-250 | definition: the y move with detonation or bounce; its cases are stated by `FlyYCases` |
| Physics.BulletStep | server/index.js:230-254 | a kept bullet is in the arena with a non-negative budget, keeps its id, owner and kind, and has spent at most one bounce per axis; only an explosive bullet detonates |
| Physics.BulletFlight | server/index.js:232-254 | a bullet in open space moves by its velocity; a normal bullet that meets a wall on x alone comes back along x with one bounce spent |
| Physics.FlyXCases | server/index.js:232-240 | along x, a bullet moves by `vx` into open space; a normal bullet that meets a wall keeps its old `x`, turns `vx` round and spends a bounce; an explosive one detonates where it met the wall |
| Physics.FlyYCases | server/index.js:242-250 | the same three cases along y |
| Physics.BulletStepCases | server/index.js:232-254 | an explosive bullet detonates exactly when it meets a wall on either axis, at the blocked point; a normal bullet is kept, as it is after both moves, exactly when it has a bounce left and is inside the arena, and is dropped otherwise |
| Physics.Survivors | server/index.js:229-255 | the bullets one flight leaves are no more than before, in the arena and with non-negative budgets |
| Physics.PutFate | server/index.js:237-253 | a bullet's fate goes back into its slot, or the slot is cut out; the slots below stay as they are |
| Physics.FlyStep | server/index.js:230-254 | one iteration of the bullet loop moves nobody and removes at most the bullet at the index |
| Physics.TerrainFrom | server/index.js:229-255 | the reverse-index loop leaves the survivors of the unflown bullets, in order, followed by those already flown; it moves nobody |
| Physics.TerrainSparesPlayers | server/index.js:229-255 | without explosive bullets the bullet loop touches no player |
| Physics.UpdatePhysics | server/index.js:161-256 | `updatePhysics` keeps the roster, the order and the pickups; every bullet it leaves is in the arena with a non-negative budget |
| Physics.PhysicsBullets | server/index.js:161-256 | the bullets after the physics step are the survivors of one flight of the bullets there were, the shots of this tick included |
| Physics.PhysicsKeepsStores | server/index.js:161-256 | the physics step changes no inventory |
| Physics.PhysicsKeepsBox | server/index.js:161-256 | the physics step leaves everyone in the box |
| Pickups.KindOf | server/index.js:336 | the drawn kind is the `n`-th of the nine types exactly when the roll times 9 lies in `[n, n + 1)` |
| Pickups.Stacked | server/index.js:334 | definition: some pickup lies within 30 units of the point; used by `SpawnPickup`'s contract |
| Pickups.SpawnPickup | server/index.js:330-340 | a pickup is appended exactly when there are fewer than five, the roll is below 0.01, the point is safe and no pickup lies within 30 units; it has the drawn id, point and kind; otherwise nothing changes |
| Pickups.SpawnKeepsMapTidy | server/index.js:330-340 | spawning keeps at most five pickups, each on a safe point, at least 30 units apart |
| Pickups.FirstFree | server/index.js:424-426 | the index is the first empty slot among the first three, every slot before it being full, or 3 when all are full |
| Pickups.FindFreeSlot | server/index.js:424-426 | the slot loop stops at the slot `FirstFree` names |
| Pickups.TryPickup | server/index.js:415-427 | with nothing in effect the pickup takes effect with the buff timer at 600 for rush and 0 otherwise, stealth making the player invisible; otherwise it is taken exactly when one of the first three slots is empty, and then it goes into the first empty slot and nothing else changes; a player that does not take it is unchanged; a taken pickup adds one to what the player holds |
| Pickups.PickupFrom | server/index.js:410-430 | the loop over the players for one pickup keeps the roster |
| Pickups.Takes | server/index.js:409-427 | definition: a live player within 20 units who `TryPickup` says can take the item; used by `PickupFromTaker` |
| Pickups.PickupFromTaker | server/index.js:410-430 | the pickup goes to the first live player in join order within reach that can take it, and no one else changes; it stays on the map exactly when no such player exists, and then nobody changes |
| Pickups.PickupsFrom | server/index.js:408-431 | the reverse-index pickup loop keeps the roster |
| Pickups.PickupPass | server/index.js:407-431 | the pickup pass keeps the roster |
| Pickups.PickupFromPlaces | server/index.js:410-430 | one pickup moves nobody and keeps the number of slots |
| Pickups.PickupsFromPlaces | server/index.js:408-431 | the rest of the pass moves nobody and keeps the number of slots |
| Pickups.PickupPlaces | server/index.js:407-431 | the pass moves nobody and keeps every player's number of slots |
| Pickups.PickupsFromTidy | server/index.js:408-431 | the rest of the pass only removes pickups, keeping the rest safe and spread |
| Pickups.PickupTidy | server/index.js:407-431 | the pass only removes pickups: no more than before, each on a safe point, 30 units apart |
| Pickups.PickupFromConserves | server/index.js:410-430 | a taken pickup adds exactly one to the power-ups the players hold; a pickup left changes nothing |
| Pickups.PickupsFromConserves | server/index.js:408-431 | power-ups held plus pickups on the map are the same before and after the rest of the pass |
| Pickups.PickupConservation | server/index.js:407-431 | each pickup is removed at most once and goes to exactly one player: held power-ups plus pickups on the map are conserved |
| Pickups.Equip | server/index.js:462-478 | a missing or dead player, or a slot that is not filled, changes nothing. Otherwise: the slot's power-up takes effect and the slot is emptied; stealth is on exactly for stealth; the reload timer is 0; rush gets 600 buff ticks and other buffs keep theirs |
| Pickups.EquipHoldings | server/index.js:465-468 | equipping moves one power-up from a slot into effect, losing the one in effect, and keeps the number of slots |
| Game.GameLogic | server/index.js:328-432 | `updateGameLogic`, with the server's bullet pass (double cut included), keeps the roster and the order |
| Game.Tick | server/index.js:487-490 | a tick, as the server writes both halves, keeps the roster and the order |
| Game.PhysicsKeepsSound | server/index.js:161-256 | the physics step keeps the state sound: roster and order agree, three slots each, everyone in the box, budgets non-negative, at most five pickups on safe points 30 units apart |
| Game.GameLogicKeepsSound | server/index.js:328-432 | the game logic keeps the state sound |
| Game.TickKeepsSound | server/index.js:487-490 | every tick keeps the state sound |
| Game.EmptyArenaTick | server/index.js:487-490 | with no players and no bullets a tick changes nothing but, at times, adds a pickup |
| Game.LoneShot | server/index.js:223-254 | a tank at (100, 100) firing along x makes a bullet at (120, 100) with velocity (7, 0) and one bounce, which the same tick flies to (127, 100) |
| Server.Arena.constructor | server/index.js:33-36 | the arena starts with the given roster, no bullets and no pickups |
| Server.Arena.KillPlayer | server/index.js:149-157 | the in-place kill leaves the players as `Combat.KillPlayer` says and nothing else changed |
| Server.Arena.BlastAt | server/index.js:103-116 | one iteration of the blast loop leaves the players as `Combat.ExplodeAt` says |
| Server.Arena.CreateExplosion | server/index.js:98-118 | the blast loop over the players in join order leaves them as `Combat.Explode` says |
| Server.Arena.HandleLaserHit | server/index.js:313-326 | the in-place laser hit leaves the players as `Combat.HandleLaserHit` says |
| Server.Arena.HandleShooting | server/index.js:258-311 | firing leaves players and bullets as `Combat.HandleShooting` says; the pickups are unchanged |
| Server.Arena.RespawnTick | server/index.js:166-187 | a dead player's record becomes `Physics.DeadTick` of it, the spawn point found by the sampling loop |
| Server.Arena.CountDown | server/index.js:190-195 | a live player's record becomes `Physics.Timers` of it |
| Server.Arena.Aim | server/index.js:198-208 | the target point is the old position plus the held keys' displacement at `Physics.TankSpeed` |
| Server.Arena.FireLaser | server/index.js:271-275 | the laser branch leaves the players as `Combat.LaserShot` says |
| Server.Arena.Step | server/index.js:211-212 | the player moves to `Physics.StepX`, then from that column to `Physics.StepYAsWritten`, the vertical test taking its arguments as the server passes them |
| Server.Arena.TurnAndClamp | server/index.js:215-220 | the player turns as `Physics.Turn` says and its centre is clamped to the box |
| Server.Arena.Drive | server/index.js:203-220 | a player's record becomes `Physics.MoveAsWritten` of it |
| Server.Arena.UpdatePlayer | server/index.js:164-225 | one iteration of the player loop leaves players and bullets as `Physics.TickPlayer` says |
| Server.Arena.Flight | server/index.js:230-254 | the flight of one bullet is `Physics.BulletStep` of it |
| Server.Arena.FlyBullet | server/index.js:230-254 | one iteration of the bullet loop, with its detonation and splice, leaves players and bullets as `Physics.FlyStep` says |
| Server.Arena.MovePlayers | server/index.js:163-226 | the player loop in join order leaves players and bullets as `Physics.PlayersFrom` says |
| Server.Arena.MoveBullets | server/index.js:229-255 | the reverse-index bullet loop leaves players and bullets as `Physics.TerrainFrom` says |
| Server.Arena.UpdatePhysics | server/index.js:161-256 | the in-place physics step leaves the state as `Physics.UpdatePhysics` says |
| Server.Arena.SpawnPickup | server/index.js:330-340 | the spawner leaves the pickups as `Pickups.SpawnPickup` says and nothing else changed |
| Server.Arena.Hit | server/index.js:350-386 | a hit leaves the players as `Combat.ApplyHit` says and reports the branch taken; the bullet is `Combat.Reflect` of itself after a parry and unchanged otherwise |
| Server.Arena.Strike | server/index.js:346-386 | a dead player, the owner or a player out of reach is skipped with nothing changed and no branch reported; otherwise as `Hit` |
| Server.Arena.ResolveBullet | server/index.js:344-388 | the inner loop for bullet `i`, cutting index `i` and going on after a shield or an invulnerable tank, leaves players and bullets as `Combat.ResolveAsWrittenFrom` says |
| Server.Arena.RushPair | server/index.js:395-403 | one pair leaves the players as `Combat.RushPair` says |
| Server.Arena.RushRow | server/index.js:394-404 | the inner rush loop leaves the players as `Combat.RushInner` says |
| Server.Arena.RushPass | server/index.js:391-405 | the nested rush loops leave the players as `Combat.RushPass` says |
| Server.Arena.OfferPickup | server/index.js:409-430 | one pickup's loop over the players, with its slot loop, leaves the players as `Pickups.PickupFrom` says, and the pickup cut out exactly when taken |
| Server.Arena.UpdateGameLogic | server/index.js:328-432 | the in-place game logic, with the server's bullet pass, leaves the state as `Game.GameLogic` says |
| Server.Arena.Tick | server/index.js:487-490 | one in-place tick, the physics step and then the game logic, leaves the state as `Game.Tick` says, and a sound state stays sound |
| Server.Arena.Equip | server/index.js:462-478 | the `equip` message leaves the players as `Pickups.Equip` says |

## Left out

- Express, HTTP and socket.io set-up, the `input` handler, joining and
  disconnecting: these are I/O wiring. The arena starts from a given roster.
- The `explosion`, `laser` and `state` broadcasts, and the every-other-tick
  throttle and tick counter: they are presentation and change no state.
- Ray casting, the laser's bounce angle and all trigonometry: these are
  floating-point geometry. The player a beam strikes is an input. It is at
  most one player, because the second beam is cast only when the first meets
  a wall. The aim of a shot is an input too.
- `Math.random`: the map's cells, respawn candidates, the spawner's draws
  and ids are inputs. The player join's spawn search is not modelled.
- The colour and `maxHp` fields are left out because no rule reads them. The
  record's own `id` is its key in the map.
- Floating point: reals are exact, so rounding of JavaScript doubles (for
  example an angle built up from steps of 0.1) is not modelled.
- The `equip` message's slot index is an integer. Other JavaScript values a
  client might send are not modelled.
- Bullets are values, not shared objects. In the bullet-versus-player
  loop the server's `b` is the same object as `bullets[i]` until the first
  cut. `Arena.ResolveBullet` tracks this with a flag, so a parry changes the
  bullet in the list exactly while it is still there.
- The join order stands for JavaScript's key order. That is the same as long
  as no id looks like an array index, and socket ids never do.
- The timing of the game loop (`setInterval`) is not modelled.

## Findings

| source | as written | input that shows it | evidently intended | confidence | as-written member | corrected member |
|---|---|---|---|---|---|---|
| server/index.js:212 | The vertical step reuses the horizontal test. It passes the new column as the moving coordinate and the old row as its old value, so it compares a column with a row and tests the side corners of the new position. | On a walled map with one obstacle tile at row 5, column 3, a tank at (80, 122) holding the down key ends at (80, 125), inside the obstacle. | Test the two corners of the leading edge of the vertical move, so a tank never drives its centre into a wall. | high; not executed | Physics.MoveAsWritten, Physics.MoveAsWrittenEntersWall | Physics.Move, Physics.MoveKeepsCentreClear |
| server/index.js:369-378 | The shield and invulnerable branches cut index `i` and then `continue`. The cut bullet is still tested against the remaining players, and a later hit cuts index `i` again. Index `i` then holds the next bullet up, which the reverse loop has already processed, and it is lost. | Player A is shielded at (100, 100), B is at (110, 100) and C is at (400, 400). C owns bullet b0 at (105, 100) and bullet b1 at (600, 300). b0 spends A's shield, then kills B and takes b1 with it, although b1 is out of everyone's reach. | A consumed bullet ends its loop, as the explosion and kill branches do with `break`. Then every bullet out of reach survives the pass. | high; not executed | Combat.CombatPassAsWritten, Combat.DoubleCutLosesFarBullet | Combat.CombatPass, Combat.CombatKeepsFarBullets |
