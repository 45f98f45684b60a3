/** The simulation rules inside the per-frame ticker of src/main.ts: turning
    the held keys into a movement intent and moving the player, the order of
    the combat and enemy updates, and opening the nearest chest. Rendering,
    the camera, the overlay and the input devices are not modelled. */
module Ticker {
  import opened Base
  import opened Inventory
  import opened Loot
  import opened Enemies
  import opened Combat

  /** Player walking speed, pixels per second. */
  const PlayerSpeed: real := 180.0
  /** A chest opens only if it is closer than 32 pixels (squared). */
  const OpenReach2: real := 1024.0

  // ---------------------------------------------------------------------
  // Movement intent

  /** The movement keys held this frame. */
  datatype Keys = Keys(up: bool, down: bool, left: bool, right: bool)

  datatype Intent = Intent(dx: int, dy: int)

  /** Each component is the positive key minus the negative one: up and
      left count -1, down and right +1. */
  function ReadIntent(k: Keys): (i: Intent)
    ensures -1 <= i.dx <= 1 && -1 <= i.dy <= 1
    ensures i.dx == -1 <==> k.left && !k.right
    ensures i.dx == 1 <==> k.right && !k.left
    ensures i.dy == -1 <==> k.up && !k.down
    ensures i.dy == 1 <==> k.down && !k.up
  {
    Intent((if k.right then 1 else 0) - (if k.left then 1 else 0),
           (if k.down then 1 else 0) - (if k.up then 1 else 0))
  }

  /** Holding opposite keys cancels them. */
  lemma OppositeKeysCancel(k: Keys)
    ensures k.up && k.down ==> ReadIntent(k).dy == 0
    ensures k.left && k.right ==> ReadIntent(k).dx == 0
    ensures ReadIntent(k).dx == 0 <==> k.left == k.right
    ensures ReadIntent(k).dy == 0 <==> k.up == k.down
  {
  }

  /** An intent of unit components has a positive length. */
  lemma IntentLength(i: Intent, len: real)
    requires -1 <= i.dx <= 1 && -1 <= i.dy <= 1 && (i.dx != 0 || i.dy != 0)
    requires IsHypot(i.dx as real, i.dy as real, len)
    ensures len > 0.0
  {
    assert i.dx as real * i.dx as real + i.dy as real * i.dy as real >= 1.0;
  }

  /** Lines 95-100: a non-zero intent is normalised by its length `len`
      (`Math.hypot`) and the player moves at 180 pixels per second for
      `delta` seconds along it; a zero intent leaves the player in place. */
  function MovePlayer(p: Pos, i: Intent, len: real, delta: real): (r: Pos)
    requires -1 <= i.dx <= 1 && -1 <= i.dy <= 1
    requires IsHypot(i.dx as real, i.dy as real, len)
    ensures i.dx == 0 && i.dy == 0 ==> r == p
    ensures i.dx != 0 || i.dy != 0 ==>
      && (r.x - p.x) * len == i.dx as real * (PlayerSpeed * delta)
      && (r.y - p.y) * len == i.dy as real * (PlayerSpeed * delta)
      && Len2(r.x - p.x, r.y - p.y) == (PlayerSpeed * delta) * (PlayerSpeed * delta)
  {
    if i.dx == 0 && i.dy == 0 then p
    else
      IntentLength(i, len);
      Step(p, Pos(i.dx as real, i.dy as real), len, PlayerSpeed * delta)
  }

  // ---------------------------------------------------------------------
  // Combat, then the enemy

  /** The game's single enemy is both held by the ticker and listed in the
      combat system; once destroyed it is pruned from the list, but the
      ticker still holds it. `world` is the world container's other
      children, where a dying enemy's chest is added. */
  datatype Game = Game(combat: CombatState, enemy: Enemy, world: seq<Child>)

  predicate Linked(g: Game)
  {
    g.combat.enemies == [g.enemy] || (g.combat.enemies == [] && g.enemy.destroyed)
  }

  /** The enemy as the combat update leaves it: the listed copy if it is
      still listed, otherwise the ticker's copy. */
  function AfterCombat(g: Game, dt: real): Enemy
  {
    var res := Resolve(g.combat.projectiles, g.combat.enemies, dt);
    if |res.enemies| == 1 then res.enemies[0] else g.enemy
  }

  /** Chests as children of the world container, in the order they are added. */
  function ChestChildren(cs: seq<Chest>): (r: seq<Child>)
    ensures |r| == |cs| && forall k :: 0 <= k < |cs| ==> r[k] == ChestChild(cs[k])
  {
    seq(|cs|, k requires 0 <= k < |cs| => ChestChild(cs[k]))
  }

  /** Lines 117-118: `combat.update(delta)` runs first, then
      `enemy.update(delta)` unless the enemy is destroyed by then. The
      enemy's own update sees the enemy after this frame's projectile hits.
      A chest dropped by a kill is added to the world. `dist`, `resolved`
      and `blinkDraw` are as for `Enemies.Update`, taken from the
      post-combat enemy. */
  function Tick(g: Game, dt: real, target: Option<Pos>, dist: real,
                resolved: Option<Pos>, blinkDraw: real): (r: Game)
    requires Linked(g)
    requires IsHypot(ToTarget(AfterCombat(g, dt), target).x, ToTarget(AfterCombat(g, dt), target).y, dist)
    requires 0.0 <= blinkDraw < 1.0
    ensures Linked(r)
    ensures r.combat.projectiles == Combat.Update(g.combat, dt).state.projectiles
    ensures AfterCombat(g, dt).destroyed ==> r.enemy == AfterCombat(g, dt) && r.combat.enemies == []
    ensures !AfterCombat(g, dt).destroyed ==>
      r.enemy == Enemies.Update(AfterCombat(g, dt), dt, target, dist, resolved, blinkDraw)
    ensures g.enemy.destroyed ==> r.enemy == g.enemy
    ensures r.world == g.world + ChestChildren(Combat.Update(g.combat, dt).chests)
    ensures !g.enemy.destroyed && AfterCombat(g, dt).destroyed ==>
      r.world == g.world + [ChestChild(NewChest(AfterCombat(g, dt).pos))]
    ensures g.enemy.destroyed || !AfterCombat(g, dt).destroyed ==> r.world == g.world
  {
    var c := Combat.Update(g.combat, dt);
    var res := Resolve(g.combat.projectiles, g.combat.enemies, dt);
    var e1 := AfterCombat(g, dt);
    var e2 := if e1.destroyed then e1 else Enemies.Update(e1, dt, target, dist, resolved, blinkDraw);
    var world := g.world + ChestChildren(c.chests);
    if g.combat.enemies == [] then
      ResolveMeaning(g.combat.projectiles, g.combat.enemies, dt);
      NothingInReach(g.combat.projectiles, g.combat.enemies, dt);
      Game(c.state, e2, world)
    else
      ResolveKeepsDestroyed(g.combat.projectiles, g.combat.enemies, dt, 0);
      assert Alive(res.enemies) == (if e1.destroyed then [] else [e1]);
      ResolveMeaning(g.combat.projectiles, g.combat.enemies, dt);
      LoneEnemyDrops(g.combat.projectiles, g.enemy, dt, 0);
      assert c.chests == Drops([g.enemy], [e1]);
      Game(c.state.(enemies := if e1.destroyed then [] else [e2]), e2, world)
  }

  /** Projectile hits never revive an enemy. */
  lemma {:induction false} ResolveKeepsDestroyed(ps: seq<Projectile>, es: seq<Enemy>, dt: real, k: int)
    requires 0 <= k < |es|
    ensures es[k].destroyed ==> Resolve(ps, es, dt).enemies[k] == es[k]
    decreases |ps|
  {
    if |ps| > 0 {
      var n := |ps|;
      var a := Advance(ps[n - 1], dt);
      var h := if a.expired then HitOutcome(false, es, None) else TryHit(a.p, es);
      if h.hit && es[k].destroyed {
        var j := TargetIndex(a.p, es);
        assert j != k;
      }
      ResolveKeepsDestroyed(ps[..n - 1], h.enemies, dt, k);
    }
  }

  // ---------------------------------------------------------------------
  // Opening the nearest chest

  /** A child of the world container: chests expose `tryOpen`, nothing else
      does. */
  datatype Child = ChestChild(chest: Chest) | Other(pos: Pos)

  function ChestDist2(c: Chest, p: Pos): real
  {
    Len2(c.pos.x - p.x, c.pos.y - p.y)
  }

  datatype Best = Best(index: int, d2: real)

  /** The scan of lines 124-134 over children[..n]: the first chest with the
      smallest squared distance to the player, or `None` (`best` still
      Infinity) if there is no chest. */
  function Nearest(children: seq<Child>, player: Pos): (r: Option<Best>)
    ensures r.None? <==> forall j :: 0 <= j < |children| ==> !children[j].ChestChild?
    ensures r.Some? ==>
      && 0 <= r.value.index < |children|
      && children[r.value.index].ChestChild?
      && r.value.d2 == ChestDist2(children[r.value.index].chest, player)
    ensures r.Some? ==> forall j :: 0 <= j < |children| && children[j].ChestChild? ==>
      r.value.d2 <= ChestDist2(children[j].chest, player)
    ensures r.Some? ==> forall j :: 0 <= j < r.value.index && children[j].ChestChild? ==>
      r.value.d2 < ChestDist2(children[j].chest, player)
  {
    if |children| == 0 then None
    else
      var n := |children|;
      var prior := Nearest(children[..n - 1], player);
      var last := children[n - 1];
      if last.ChestChild? && (prior.None? || ChestDist2(last.chest, player) < prior.value.d2) then
        Some(Best(n - 1, ChestDist2(last.chest, player)))
      else
        prior
  }

  datatype OpenResult = OpenResult(children: seq<Child>, inv: Inventory, didOpen: bool)

  /** Lines 135-138: open the nearest chest if it is within reach. */
  function OpenNearest(children: seq<Child>, player: Pos, inv: Inventory): (r: OpenResult)
    ensures |r.children| == |children|
    ensures Nearest(children, player).None? ==> r == OpenResult(children, inv, false)
    ensures forall b :: Nearest(children, player) == Some(b) && b.d2 >= OpenReach2 ==>
      r == OpenResult(children, inv, false)
    ensures forall b :: Nearest(children, player) == Some(b) && b.d2 < OpenReach2 ==>
      var o := TryOpen(children[b.index].chest, inv);
      && r.children == children[b.index := ChestChild(o.chest)]
      && r.inv == o.inv && r.didOpen == o.ok
  {
    match Nearest(children, player)
    case None => OpenResult(children, inv, false)
    case Some(b) =>
      if b.d2 < OpenReach2 then
        var o := TryOpen(children[b.index].chest, inv);
        OpenResult(children[b.index := ChestChild(o.chest)], o.inv, o.ok)
      else
        OpenResult(children, inv, false)
  }
}
