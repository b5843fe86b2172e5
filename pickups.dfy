/** Power-ups: spawning them on the map, picking them up, and equipping one
    from the inventory. */
module Pickups {
  import opened Collision
  import opened Entities

  /** 20-unit pickup reach, squared. */
  const PICKUP_DIST_SQ: real := 400.0
  /** Duration of a rush, in ticks. */
  const RUSH_TICKS: int := 600
  /** Chance per tick that a pickup spawn is tried. */
  const SPAWN_CHANCE: real := 0.01
  /** 30-unit spacing between pickups, squared. */
  const STACK_DIST_SQ: real := 900.0

  // ---------------------------------------------------------------------------
  // Spawning

  /** Some pickup lies within 30 units of `(x, y)`. */
  predicate Stacked(items: seq<Item>, x: real, y: real) {
    exists j :: 0 <= j < |items| && DistSq(items[j].x, items[j].y, x, y) < STACK_DIST_SQ
  }

  /** The kind drawn by `POWERUP_TYPES[Math.floor(roll * 9)]`: the `n`-th
      kind exactly when the roll falls in the `n`-th ninth of the unit
      interval. */
  function KindOf(roll: Unit): (k: PowerUp)
    ensures forall n :: 0 <= n < |POWERUP_TYPES| ==>
              (k == POWERUP_TYPES[n] <==> n as real <= roll * 9.0 < (n + 1) as real)
  {
    var n := (roll * (|POWERUP_TYPES| as real)).Floor;
    assert 0 <= n < |POWERUP_TYPES| by {
      assert 0.0 <= roll * 9.0 < 9.0;
    }
    POWERUP_TYPES[n]
  }

  /** Every pickup lies on a safe spawn point. */
  predicate AllSafe(g: Grid, items: seq<Item>)
    requires ValidGrid(g)
  {
    forall j :: 0 <= j < |items| ==> IsSafeSpawn(g, items[j].x, items[j].y)
  }

  /** No two pickups lie within 30 units of each other. */
  predicate Spread(items: seq<Item>) {
    forall i, j :: 0 <= i < j < |items| ==> DistSq(items[i].x, items[i].y, items[j].x, items[j].y) >= STACK_DIST_SQ
  }

  /** The spawn step of the game logic.  With fewer than five pickups and a
      roll under 0.01, a new pickup of the drawn kind is appended at the drawn
      point, provided the point is safe and no pickup lies within 30 units of
      it; otherwise nothing happens. */
  function SpawnPickup(g: Grid, items: seq<Item>, env: Env): (r: seq<Item>)
    requires ValidGrid(g)
    ensures r == items || (|r| == |items| + 1 && r[..|items|] == items)
    ensures r != items <==>
              |items| < MAX_POWERUPS && env.spawnRoll < SPAWN_CHANCE &&
              IsSafeSpawn(g, env.spawnAt.x, env.spawnAt.y) && !Stacked(items, env.spawnAt.x, env.spawnAt.y)
    ensures r != items ==>
              r[|items|] == Item(env.itemId, env.spawnAt.x, env.spawnAt.y, KindOf(env.kindRoll))
  {
    var pt := env.spawnAt;
    if |items| < MAX_POWERUPS && env.spawnRoll < SPAWN_CHANCE then
      if IsSafeSpawn(g, pt.x, pt.y) && !Stacked(items, pt.x, pt.y) then
        items + [Item(env.itemId, pt.x, pt.y, KindOf(env.kindRoll))]
      else items
    else items
  }

  /** Spawning keeps the map's pickups at most five, each on a safe point,
      and at least 30 units apart. */
  lemma SpawnKeepsMapTidy(g: Grid, items: seq<Item>, env: Env)
    requires ValidGrid(g) && |items| <= MAX_POWERUPS && AllSafe(g, items) && Spread(items)
    ensures var r := SpawnPickup(g, items, env);
      |r| <= MAX_POWERUPS && AllSafe(g, r) && Spread(r)
  {
    var r := SpawnPickup(g, items, env);
    if r != items {
      forall i, j | 0 <= i < j < |r|
        ensures DistSq(r[i].x, r[i].y, r[j].x, r[j].y) >= STACK_DIST_SQ
      {
        if j == |items| {
          assert r[i] == items[i];
          assert !(DistSq(items[i].x, items[i].y, env.spawnAt.x, env.spawnAt.y) < STACK_DIST_SQ);
        } else {
          assert r[i] == items[i] && r[j] == items[j];
        }
      }
    }
  }

  // ---------------------------------------------------------------------------
  // Picking up

  /** The index of the first empty slot among the first three from `k` on,
      or the number of slots looked at when all are full. */
  function FirstFree(inv: seq<Option<PowerUp>>, k: nat): (n: nat)
    requires k <= Looked(inv)
    ensures k <= n <= Looked(inv)
    ensures forall s :: k <= s < n ==> inv[s].Some?
    ensures n < Looked(inv) ==> inv[n].None?
    decreases Looked(inv) - k
  {
    if k == Looked(inv) then k
    else if inv[k].None? then k
    else FirstFree(inv, k + 1)
  }

  /** The slots the pickup loop looks at: the first three. */
  function Looked(inv: seq<Option<PowerUp>>): nat {
    if |inv| < SLOTS then |inv| else SLOTS
  }

  /** The slot loop of a pickup. */
  method FindFreeSlot(inv: seq<Option<PowerUp>>) returns (n: nat)
    ensures n == FirstFree(inv, 0)
  {
    n := 0;
    while n < Looked(inv) && inv[n].Some?
      invariant n <= Looked(inv)
      invariant FirstFree(inv, n) == FirstFree(inv, 0)
      decreases Looked(inv) - n
    {
      n := n + 1;
    }
  }

  /** A player within reach tries to take a pickup of `kind`: with nothing in
      effect it takes effect at once (rush for 600 ticks, stealth making the
      player invisible); otherwise it goes to the first empty slot; with no
      empty slot the player leaves it.  The flag says whether it was taken. */
  function TryPickup(p: Player, kind: PowerUp): (r: (Player, bool))
    ensures !r.1 ==> r.0 == p
    ensures p.activeItem.None? ==>
              r.1 && r.0 == p.(activeItem := Some(kind), buffTimer := if kind == Rush then RUSH_TICKS else 0,
                               invisible := kind == Stealth || p.invisible)
    ensures p.activeItem.Some? ==>
              r.0.activeItem == p.activeItem && |r.0.inventory| == |p.inventory| &&
              (r.1 <==> exists s :: 0 <= s < Looked(p.inventory) && p.inventory[s].None?)
    ensures p.activeItem.Some? && r.1 ==>
              var n := FirstFree(p.inventory, 0);
              n < Looked(p.inventory) && r.0 == p.(inventory := p.inventory[n := Some(kind)])
    ensures r.1 ==> Holdings(r.0) == Holdings(p) + 1
  {
    if p.activeItem.None? then
      var p1 := p.(activeItem := Some(kind), buffTimer := if kind == Rush then RUSH_TICKS else 0);
      (if kind == Stealth then p1.(invisible := true) else p1, true)
    else
      var n := FirstFree(p.inventory, 0);
      if n < Looked(p.inventory) then
        FillCounts(p.inventory, n, kind);
        (p.(inventory := p.inventory[n := Some(kind)]), true)
      else (p, false)
  }

  /** Filling an empty slot adds one to the count of filled slots. */
  lemma {:induction false} FillCounts(inv: seq<Option<PowerUp>>, n: nat, kind: PowerUp)
    requires n < |inv| && inv[n].None?
    ensures Stored(inv[n := Some(kind)]) == Stored(inv) + 1
  {
    if n > 0 {
      FillCounts(inv[1..], n - 1, kind);
      assert inv[n := Some(kind)][1..] == inv[1..][n - 1 := Some(kind)];
    } else {
      assert inv[n := Some(kind)][1..] == inv[1..];
    }
  }

  /** The inner loop of the pickup pass for one pickup: the players in join
      order from the `k`-th, the first live one within reach that can take it
      taking it.  Returns the players and whether it was taken. */
  function PickupFrom(ps: Players, order: seq<Id>, k: nat, item: Item): (r: (Players, bool))
    requires Covers(ps, order) && k <= |order|
    ensures r.0.Keys == ps.Keys
    decreases |order| - k
  {
    if k == |order| then (ps, false)
    else
      var id := order[k];
      var p := ps[id];
      if p.isDead || DistSq(p.x, p.y, item.x, item.y) >= PICKUP_DIST_SQ then PickupFrom(ps, order, k + 1, item)
      else
        var t := TryPickup(p, item.kind);
        if t.1 then (ps[id := t.0], true) else PickupFrom(ps, order, k + 1, item)
  }

  /** Player `id` is live, within reach of `item` and able to take it. */
  predicate Takes(ps: Players, id: Id, item: Item) {
    id in ps && !ps[id].isDead && DistSq(ps[id].x, ps[id].y, item.x, item.y) < PICKUP_DIST_SQ &&
    TryPickup(ps[id], item.kind).1
  }

  /** Who gets a pickup: the first player of `order[k..]` that can take it,
      and no one else changes; it stays on the map exactly when no player
      there can take it, and then nobody changes. */
  lemma {:induction false} PickupFromTaker(ps: Players, order: seq<Id>, k: nat, item: Item)
    requires Covers(ps, order) && k <= |order|
    ensures var r := PickupFrom(ps, order, k, item);
      (!r.1 <==> forall j :: k <= j < |order| ==> !Takes(ps, order[j], item)) &&
      (!r.1 ==> r.0 == ps)
    ensures var r := PickupFrom(ps, order, k, item);
      r.1 ==> exists j :: k <= j < |order| && Takes(ps, order[j], item) &&
                (forall l :: k <= l < j ==> !Takes(ps, order[l], item)) &&
                r.0 == ps[order[j] := TryPickup(ps[order[j]], item.kind).0]
    decreases |order| - k
  {
    if k < |order| {
      var r := PickupFrom(ps, order, k, item);
      if Takes(ps, order[k], item) {
        assert r.0 == ps[order[k] := TryPickup(ps[order[k]], item.kind).0];
      } else {
        assert r == PickupFrom(ps, order, k + 1, item);
        PickupFromTaker(ps, order, k + 1, item);
        if r.1 {
          var j :| k + 1 <= j < |order| && Takes(ps, order[j], item) &&
                   (forall l :: k + 1 <= l < j ==> !Takes(ps, order[l], item)) &&
                   r.0 == ps[order[j] := TryPickup(ps[order[j]], item.kind).0];
          assert forall l :: k <= l < j ==> !Takes(ps, order[l], item);
        }
      }
    }
  }

  /** The pickup pass from index `i` down; a taken pickup leaves the map. */
  function PickupsFrom(ps: Players, order: seq<Id>, items: seq<Item>, i: int): (r: (Players, seq<Item>))
    requires Covers(ps, order) && -1 <= i < |items|
    ensures r.0.Keys == ps.Keys
    decreases i + 1
  {
    if i < 0 then (ps, items)
    else
      var t := PickupFrom(ps, order, 0, items[i]);
      PickupsFrom(t.0, order, if t.1 then items[..i] + items[i + 1..] else items, i - 1)
  }

  function PickupPass(ps: Players, order: seq<Id>, items: seq<Item>): (r: (Players, seq<Item>))
    requires Covers(ps, order)
    ensures r.0.Keys == ps.Keys
  {
    PickupsFrom(ps, order, items, |items| - 1)
  }

  lemma {:induction false} PickupFromPlaces(ps: Players, order: seq<Id>, k: nat, item: Item)
    requires Covers(ps, order) && k <= |order|
    ensures SamePlaces(ps, PickupFrom(ps, order, k, item).0)
    decreases |order| - k
  {
    if k < |order| {
      PickupFromPlaces(ps, order, k + 1, item);
    }
  }

  /** One step of the pickup pass. */
  lemma PickupsFromStep(ps: Players, order: seq<Id>, items: seq<Item>, i: nat)
    requires Covers(ps, order) && i < |items|
    ensures var t := PickupFrom(ps, order, 0, items[i]);
      var items1 := if t.1 then items[..i] + items[i + 1..] else items;
      |items1| >= i && PickupsFrom(ps, order, items, i) == PickupsFrom(t.0, order, items1, i - 1)
  {
  }

  lemma {:induction false} PickupsFromPlaces(ps: Players, order: seq<Id>, items: seq<Item>, i: int)
    requires Covers(ps, order) && -1 <= i < |items|
    ensures SamePlaces(ps, PickupsFrom(ps, order, items, i).0)
    decreases i + 1
  {
    if i >= 0 {
      var t := PickupFrom(ps, order, 0, items[i]);
      PickupFromPlaces(ps, order, 0, items[i]);
      var items1 := if t.1 then items[..i] + items[i + 1..] else items;
      PickupsFromStep(ps, order, items, i);
      PickupsFromPlaces(t.0, order, items1, i - 1);
    }
  }

  /** Picking up moves nobody and keeps every inventory's size. */
  lemma PickupPlaces(ps: Players, order: seq<Id>, items: seq<Item>)
    requires Covers(ps, order)
    ensures SamePlaces(ps, PickupPass(ps, order, items).0)
  {
    PickupsFromPlaces(ps, order, items, |items| - 1);
  }

  lemma RemoveKeepsTidy(g: Grid, items: seq<Item>, i: nat)
    requires ValidGrid(g) && i < |items| && AllSafe(g, items) && Spread(items)
    ensures var r := items[..i] + items[i + 1..]; AllSafe(g, r) && Spread(r)
  {
    var r := items[..i] + items[i + 1..];
    assert forall j :: 0 <= j < |r| ==> r[j] == items[if j < i then j else j + 1];
  }

  lemma {:induction false} PickupsFromTidy(g: Grid, ps: Players, order: seq<Id>, items: seq<Item>, i: int)
    requires ValidGrid(g) && Covers(ps, order) && -1 <= i < |items| && AllSafe(g, items) && Spread(items)
    ensures var r := PickupsFrom(ps, order, items, i).1;
      |r| <= |items| && AllSafe(g, r) && Spread(r)
    decreases i + 1
  {
    if i >= 0 {
      var t := PickupFrom(ps, order, 0, items[i]);
      var items1 := if t.1 then items[..i] + items[i + 1..] else items;
      if t.1 {
        RemoveKeepsTidy(g, items, i);
      }
      PickupsFromStep(ps, order, items, i);
      PickupsFromTidy(g, t.0, order, items1, i - 1);
    }
  }

  /** Picking up only takes pickups off the map: the cap, the safety of each
      pickup's point and the spacing all survive. */
  lemma PickupTidy(g: Grid, ps: Players, order: seq<Id>, items: seq<Item>)
    requires ValidGrid(g) && Covers(ps, order) && AllSafe(g, items) && Spread(items)
    ensures var r := PickupPass(ps, order, items).1;
      |r| <= |items| && AllSafe(g, r) && Spread(r)
  {
    PickupsFromTidy(g, ps, order, items, |items| - 1);
  }

  // ---------------------------------------------------------------------------
  // Conservation

  /** The power-ups held by the players of `order` from the `k`-th on. */
  function HeldFrom(ps: Players, order: seq<Id>, k: nat): nat
    requires Covers(ps, order) && k <= |order|
    decreases |order| - k
  {
    if k == |order| then 0 else Holdings(ps[order[k]]) + HeldFrom(ps, order, k + 1)
  }

  /** Giving one player one more power-up adds one to the total. */
  lemma {:induction false} HeldAfterGain(ps: Players, order: seq<Id>, k: nat, id: Id, p: Player)
    requires Covers(ps, order) && Distinct(order) && k <= |order| && id in ps
    requires Holdings(p) == Holdings(ps[id]) + 1
    ensures HeldFrom(ps[id := p], order, k) == HeldFrom(ps, order, k) + (if id in order[k..] then 1 else 0)
    decreases |order| - k
  {
    if k < |order| {
      HeldAfterGain(ps, order, k + 1, id, p);
      SplitAt(order, k);
    }
  }

  lemma {:induction false} PickupFromConserves(ps: Players, order: seq<Id>, k: nat, item: Item)
    requires Covers(ps, order) && Distinct(order) && k <= |order|
    ensures var r := PickupFrom(ps, order, k, item);
      HeldFrom(r.0, order, 0) == HeldFrom(ps, order, 0) + (if r.1 then 1 else 0)
    decreases |order| - k
  {
    if k < |order| {
      var id := order[k];
      var p := ps[id];
      if p.isDead || DistSq(p.x, p.y, item.x, item.y) >= PICKUP_DIST_SQ {
        PickupFromConserves(ps, order, k + 1, item);
      } else {
        var t := TryPickup(p, item.kind);
        if t.1 {
          HeldAfterGain(ps, order, 0, id, t.0);
          assert id in order[0..] by {
            assert order[0..][k] == id;
          }
        } else {
          PickupFromConserves(ps, order, k + 1, item);
        }
      }
    }
  }

  lemma {:induction false} PickupsFromConserves(ps: Players, order: seq<Id>, items: seq<Item>, i: int)
    requires Covers(ps, order) && Distinct(order) && -1 <= i < |items|
    ensures var r := PickupsFrom(ps, order, items, i);
      HeldFrom(r.0, order, 0) + |r.1| == HeldFrom(ps, order, 0) + |items|
    decreases i + 1
  {
    if i >= 0 {
      var t := PickupFrom(ps, order, 0, items[i]);
      var items1 := if t.1 then items[..i] + items[i + 1..] else items;
      PickupFromConserves(ps, order, 0, items[i]);
      PickupsFromStep(ps, order, items, i);
      PickupsFromConserves(t.0, order, items1, i - 1);
      assert |items1| + (if t.1 then 1 else 0) == |items|;
    }
  }

  /** Picking up conserves power-ups: every pickup that leaves the map is
      held by exactly one player, in effect or in a slot. */
  lemma PickupConservation(ps: Players, order: seq<Id>, items: seq<Item>)
    requires WellFormed(ps, order)
    ensures var r := PickupPass(ps, order, items);
      HeldFrom(r.0, order, 0) + |r.1| == HeldFrom(ps, order, 0) + |items|
  {
    PickupsFromConserves(ps, order, items, |items| - 1);
  }

  // ---------------------------------------------------------------------------
  // Equipping

  /** The `equip` handler: a missing or dead player, or a slot index that
      does not name a filled slot, changes nothing.  Otherwise the slot's
      power-up takes effect (replacing whatever was in effect), the slot is
      emptied, stealth is on exactly when the new power-up is stealth, the
      reload timer is cleared and a rush gets 600 ticks; any other buff
      timer keeps running. */
  function Equip(ps: Players, id: Id, slot: int): (r: Players)
    ensures r.Keys == ps.Keys
    ensures id !in ps || ps[id].isDead || !(0 <= slot < |ps[id].inventory|) || ps[id].inventory[slot].None? ==>
              r == ps
    ensures id in ps && !ps[id].isDead && 0 <= slot < |ps[id].inventory| && ps[id].inventory[slot].Some? ==>
              var p := ps[id];
              var kind := p.inventory[slot].value;
              r == ps[id := p.(activeItem := Some(kind), inventory := p.inventory[slot := None],
                               invisible := kind == Stealth, reloadTimer := 0,
                               buffTimer := if kind == Rush then RUSH_TICKS else p.buffTimer)]
  {
    if id !in ps || ps[id].isDead then ps
    else
      var p := ps[id];
      if 0 <= slot < |p.inventory| && p.inventory[slot].Some? then
        var kind := p.inventory[slot].value;
        var p1 := p.(activeItem := Some(kind), inventory := p.inventory[slot := None],
                     invisible := kind == Stealth, reloadTimer := 0);
        ps[id := if kind == Rush then p1.(buffTimer := RUSH_TICKS) else p1]
      else ps
  }

  /** Emptying a filled slot takes one off the count of filled slots. */
  lemma {:induction false} EmptyCounts(inv: seq<Option<PowerUp>>, n: nat)
    requires n < |inv| && inv[n].Some?
    ensures Stored(inv[n := None]) + 1 == Stored(inv)
  {
    if n > 0 {
      EmptyCounts(inv[1..], n - 1);
      assert inv[n := None][1..] == inv[1..][n - 1 := None];
    } else {
      assert inv[n := None][1..] == inv[1..];
    }
  }

  /** Equipping moves a power-up from a slot into effect; a power-up that was
      already in effect is lost. */
  lemma EquipHoldings(ps: Players, id: Id, slot: int)
    requires id in ps && !ps[id].isDead && 0 <= slot < |ps[id].inventory| && ps[id].inventory[slot].Some?
    ensures Holdings(Equip(ps, id, slot)[id]) == Holdings(ps[id]) - (if ps[id].activeItem.Some? then 1 else 0)
    ensures |Equip(ps, id, slot)[id].inventory| == |ps[id].inventory|
  {
    EmptyCounts(ps[id].inventory, slot);
  }
}
