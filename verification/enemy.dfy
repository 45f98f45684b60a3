/** The chasing enemy (src/enemy.ts): damage, death with a chest drop, the
    chase step, the eye-blink timer and the health-bar ratio. Legs, body bob,
    the damage flash and all drawing are presentation and not modelled. */
module Enemies {
  import opened Base
  import opened Loot

  const Speed: real := 100.0
  const DetectionRadius: real := 220.0
  const MaxHealth: real := 20.0
  /** How long the health bar stays visible after a hit, in seconds. */
  const BarTime: real := 3.0
  /** Blink timings, in seconds. */
  const BlinkOpen: real := 1.5
  const BlinkClosed: real := 0.08

  datatype Enemy = Enemy(
    pos: Pos,
    health: real,
    destroyed: bool,
    blinkTimer: real,
    blinkState: int,
    damageDisplayTimer: real)

  /** `new Enemy(target)` placed at pos. */
  function NewEnemy(pos: Pos): (e: Enemy)
    ensures e.pos == pos && e.health == MaxHealth && !e.destroyed
    ensures e.blinkTimer == BlinkOpen && e.blinkState == 0 && e.damageDisplayTimer == 0.0
  {
    Enemy(pos, MaxHealth, false, BlinkOpen, 0, 0.0)
  }

  // ---------------------------------------------------------------------
  // takeDamage

  datatype DamageOutcome = DamageOutcome(enemy: Enemy, chest: Option<Chest>)

  /** `takeDamage(amount, knockbackX, knockbackY)`: health drops by amount but
      not below 0, the enemy is pushed by the knockback, the health bar shows
      for 3 seconds, and a living enemy whose health reaches 0 drops a closed
      chest where it stands and is destroyed. */
  function TakeDamage(e: Enemy, amount: real, kx: real := 0.0, ky: real := 0.0): (r: DamageOutcome)
    ensures r.enemy.health >= 0.0
    ensures e.health - amount >= 0.0 ==> r.enemy.health == e.health - amount
    ensures e.health - amount < 0.0 ==> r.enemy.health == 0.0
    ensures r.enemy.pos == Pos(e.pos.x + kx, e.pos.y + ky)
    ensures r.enemy.damageDisplayTimer == BarTime
    ensures r.chest.Some? <==> !e.destroyed && r.enemy.health <= 0.0
    ensures r.chest.Some? ==> r.chest.value == NewChest(r.enemy.pos)
    ensures r.enemy.destroyed <==> e.destroyed || r.enemy.health <= 0.0
    ensures r.enemy.blinkTimer == e.blinkTimer && r.enemy.blinkState == e.blinkState
  {
    var health := MaxReal(0.0, e.health - amount);
    var pos := Pos(e.pos.x + kx, e.pos.y + ky);
    var hit := e.(health := health, pos := pos, damageDisplayTimer := BarTime);
    if health <= 0.0 && !e.destroyed then
      DamageOutcome(hit.(destroyed := true), Some(NewChest(pos)))
    else
      DamageOutcome(hit, None)
  }

  /** One `takeDamage` call: the damage and the knockback it carries. */
  datatype Hit = Hit(amount: real, kx: real, ky: real)

  /** A run of hits, in order; collects the chests they drop. */
  function Hits(e: Enemy, hits: seq<Hit>): (Enemy, seq<Chest>)
  {
    if |hits| == 0 then (e, [])
    else
      var prior := Hits(e, hits[..|hits| - 1]);
      var h := hits[|hits| - 1];
      var o := TakeDamage(prior.0, h.amount, h.kx, h.ky);
      (o.enemy, prior.1 + (if o.chest.Some? then [o.chest.value] else []))
  }

  /** However many hits land, with whatever knockback, an enemy drops at
      most one chest, and none at all if it was already destroyed. */
  lemma {:induction false} AtMostOneChest(e: Enemy, hits: seq<Hit>)
    ensures |Hits(e, hits).1| <= 1
    ensures e.destroyed ==> |Hits(e, hits).1| == 0
    ensures |Hits(e, hits).1| == 1 ==> Hits(e, hits).0.destroyed
    ensures Hits(e, hits).0.destroyed <==> e.destroyed || |Hits(e, hits).1| == 1
  {
    if |hits| > 0 {
      AtMostOneChest(e, hits[..|hits| - 1]);
    }
  }

  /** The chests a list of enemies drops between two moments: a closed
      chest where each enemy now stands that was alive before and is
      destroyed now, in list order. */
  function Drops(before: seq<Enemy>, after: seq<Enemy>): (r: seq<Chest>)
    requires |before| == |after|
    ensures |r| <= |before|
  {
    if |before| == 0 then []
    else
      (if !before[0].destroyed && after[0].destroyed then [NewChest(after[0].pos)] else [])
      + Drops(before[1..], after[1..])
  }

  // ---------------------------------------------------------------------
  // update

  /** The vector from the enemy to its target; with no target the enemy
      aims at itself (`target?.x ?? this.x`). */
  function ToTarget(e: Enemy, target: Option<Pos>): (d: Pos)
    ensures target.None? ==> d == Pos(0.0, 0.0)
  {
    match target
    case None => Pos(0.0, 0.0)
    case Some(t) => Pos(t.x - e.pos.x, t.y - e.pos.y)
  }

  /** The enemy walks this frame: its target is farther than 1 pixel and
      closer than the detection radius. */
  predicate Moving(dist: real)
  {
    dist < DetectionRadius && dist > 1.0
  }

  /** `(blinkState + 1) % 2` with JavaScript's truncating remainder. */
  function ToggleBlink(s: int): (r: int)
    ensures 0 <= s <= 1 ==> r == 1 - s
    ensures s >= -1 ==> 0 <= r <= 1
  {
    var n := s + 1;
    if n >= 0 then n % 2 else -((-n) % 2)
  }

  /** The blink state is either eyes open (0) or closed (1). */
  predicate BlinkOk(e: Enemy)
  {
    0 <= e.blinkState <= 1
  }

  /** `update(dt)`. `dist` is `Math.hypot` of the vector to the target.
      `resolved` is the position a parent `resolveMovement` hook would
      return; the game's world provides none, so `None` is the shipped
      behaviour. `blinkDraw` is the `Math.random()` draw that times the
      next blink. */
  function Update(e: Enemy, dt: real, target: Option<Pos>, dist: real,
                  resolved: Option<Pos>, blinkDraw: real): (r: Enemy)
    requires IsHypot(ToTarget(e, target).x, ToTarget(e, target).y, dist)
    requires 0.0 <= blinkDraw < 1.0
    ensures e.destroyed ==> r == e
    ensures r.health == e.health && r.destroyed == e.destroyed
    ensures !e.destroyed ==> r.pos == Chase(e, dt, target, dist, resolved)
    ensures !e.destroyed && e.blinkTimer - dt > 0.0 ==>
      r.blinkState == e.blinkState && r.blinkTimer == e.blinkTimer - dt
    ensures !e.destroyed && e.blinkTimer - dt <= 0.0 ==> r.blinkState == ToggleBlink(e.blinkState)
    ensures !e.destroyed && e.blinkTimer - dt <= 0.0 && r.blinkState == 1 ==> r.blinkTimer == BlinkClosed
    ensures !e.destroyed && e.blinkTimer - dt <= 0.0 && r.blinkState != 1 ==>
      BlinkOpen <= r.blinkTimer < 2.0 * BlinkOpen
    ensures BlinkOk(e) ==> BlinkOk(r)
    ensures !e.destroyed && e.damageDisplayTimer > 0.0 ==> r.damageDisplayTimer == e.damageDisplayTimer - dt
    ensures e.damageDisplayTimer <= 0.0 ==> r.damageDisplayTimer == e.damageDisplayTimer
  {
    if e.destroyed then e
    else
      var pos := Chase(e, dt, target, dist, resolved);
      var bt := e.blinkTimer - dt;
      var bs := if bt <= 0.0 then ToggleBlink(e.blinkState) else e.blinkState;
      var bt2 := if bt > 0.0 then bt else if bs == 1 then BlinkClosed else BlinkOpen + blinkDraw * BlinkOpen;
      var ddt := if e.damageDisplayTimer > 0.0 then e.damageDisplayTimer - dt else e.damageDisplayTimer;
      Enemy(pos, e.health, e.destroyed, bt2, bs, ddt)
  }

  /** Where the chase leaves a living enemy this frame: in place unless the
      target is between 1 and 220 pixels away; otherwise at the position a
      `resolveMovement` hook returns, or one step of 100 px/s for dt toward
      the target. */
  function Chase(e: Enemy, dt: real, target: Option<Pos>, dist: real, resolved: Option<Pos>): (r: Pos)
    requires IsHypot(ToTarget(e, target).x, ToTarget(e, target).y, dist)
    ensures !Moving(dist) ==> r == e.pos
    ensures Moving(dist) && resolved.Some? ==> r == resolved.value
    ensures Moving(dist) && resolved.None? ==>
      && r == Step(e.pos, ToTarget(e, target), dist, Speed * dt)
      && Len2(r.x - e.pos.x, r.y - e.pos.y) == (Speed * dt) * (Speed * dt)
  {
    if !Moving(dist) then e.pos
    else if resolved.Some? then resolved.value
    else Step(e.pos, ToTarget(e, target), dist, Speed * dt)
  }

  /** One chase step of length `reach` along (dx, dy) from p, for a non-zero
      length `dist` of (dx, dy): `p + (d / dist) * reach`. When dist is
      the length of d, the step is exactly `reach` long. */
  function Step(p: Pos, d: Pos, dist: real, reach: real): (r: Pos)
    requires dist > 0.0
    ensures (r.x - p.x) * dist == d.x * reach && (r.y - p.y) * dist == d.y * reach
    ensures IsHypot(d.x, d.y, dist) ==> Len2(r.x - p.x, r.y - p.y) == reach * reach
  {
    ScaleBack(d.x, dist, reach);
    ScaleBack(d.y, dist, reach);
    var r := Pos(p.x + (d.x / dist) * reach, p.y + (d.y / dist) * reach);
    assert IsHypot(d.x, d.y, dist) ==> Len2(r.x - p.x, r.y - p.y) == reach * reach by {
      if IsHypot(d.x, d.y, dist) {
        HypotScale(r.x - p.x, r.y - p.y, d.x, d.y, dist, reach);
      }
    }
    r
  }

  /** Dividing by l and multiplying back cancels. */
  lemma ScaleBack(a: real, l: real, k: real)
    requires l > 0.0
    ensures (a / l) * k * l == a * k
  {
    var q := a / l;
    assert q * l == a;
    assert q * k * l == q * l * k;
  }

  // ---------------------------------------------------------------------
  // drawHealthBar

  /** The filled fraction of the health bar. */
  function HealthRatio(e: Enemy): (ratio: real)
    ensures 0.0 <= ratio <= 1.0
    ensures 0.0 <= e.health <= MaxHealth ==> ratio * MaxHealth == e.health
    ensures e.health >= MaxHealth ==> ratio == 1.0
    ensures e.health <= 0.0 ==> ratio == 0.0
  {
    MaxReal(0.0, MinReal(1.0, e.health / MaxHealth))
  }
}
