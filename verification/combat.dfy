/** Projectiles and the combat system (src/combat.ts). Projectiles and melee
    only ever strike enemies. Sprites, flashes and the scene graph are not
    modelled: a projectile's removal is its absence from the returned list. */
module Combat {
  import opened Base
  import opened Loot
  import opened Enemies

  const Lifetime: real := 1.2
  const ProjectileDamage: real := 3.0
  /** Speed given to projectiles by `castMagic`. */
  const CastSpeed: real := 280.0
  /** A projectile hits an enemy within this distance. */
  const HitRadius: real := 10.0
  /** Fraction of the offset applied as knockback by a projectile. */
  const HitPush: real := 0.05
  const MeleeDamage: real := 2.0
  const MeleePush: real := 20.0
  /** Enemies closer than this to the swing's origin are not struck. */
  const MeleeMinDist: real := 0.001

  datatype Projectile = Projectile(pos: Pos, vx: real, vy: real, lifetime: real, damage: real)

  // ---------------------------------------------------------------------
  // Projectile

  /** `new Projectile(x, y, dirX, dirY, speed)`; len is `Math.hypot(dirX, dirY)`.
      A zero direction falls back to length 1 (`|| 1`) and so gives zero
      velocity; any other direction gives a velocity along it scaled to speed. */
  function NewProjectile(x: real, y: real, dirX: real, dirY: real, speed: real, len: real): (p: Projectile)
    requires IsHypot(dirX, dirY, len)
    ensures p.pos == Pos(x, y) && p.lifetime == Lifetime && p.damage == ProjectileDamage
    ensures dirX == 0.0 && dirY == 0.0 ==> p.vx == 0.0 && p.vy == 0.0
    ensures len > 0.0 ==> p.vx * len == dirX * speed && p.vy * len == dirY * speed
    ensures len > 0.0 ==> Len2(p.vx, p.vy) == speed * speed
  {
    var l := if len == 0.0 then 1.0 else len;
    ScaleBack(dirX, l, speed);
    ScaleBack(dirY, l, speed);
    var p := Projectile(Pos(x, y), (dirX / l) * speed, (dirY / l) * speed, Lifetime, ProjectileDamage);
    assert len > 0.0 ==> Len2(p.vx, p.vy) == speed * speed by {
      if len > 0.0 {
        HypotScale(p.vx, p.vy, dirX, dirY, len, speed);
      }
    }
    p
  }

  datatype Advanced = Advanced(p: Projectile, expired: bool)

  /** `update(dt)`: move by velocity times dt, age by dt, and report expiry. */
  function Advance(p: Projectile, dt: real): (r: Advanced)
    ensures r.p.lifetime == p.lifetime - dt
    ensures r.expired <==> r.p.lifetime <= 0.0
    ensures r.p.vx == p.vx && r.p.vy == p.vy && r.p.damage == p.damage
    ensures r.p.pos == Pos(p.pos.x + p.vx * dt, p.pos.y + p.vy * dt)
  {
    var q := p.(pos := Pos(p.pos.x + p.vx * dt, p.pos.y + p.vy * dt), lifetime := p.lifetime - dt);
    Advanced(q, q.lifetime <= 0.0)
  }

  /** Two frames of a and b seconds take a projectile where one frame of
      a + b seconds would. */
  lemma AdvanceAdditive(p: Projectile, a: real, b: real)
    ensures Advance(Advance(p, a).p, b).p == Advance(p, a + b).p
  {
    assert p.vx * a + p.vx * b == p.vx * (a + b);
    assert p.vy * a + p.vy * b == p.vy * (a + b);
  }

  /** The projectile can strike e: e is alive and within 10 pixels. */
  predicate InRange(p: Projectile, e: Enemy)
  {
    !e.destroyed && Len2(e.pos.x - p.pos.x, e.pos.y - p.pos.y) <= HitRadius * HitRadius
  }

  /** k is the first enemy of the list the projectile can strike. */
  predicate FirstInRange(p: Projectile, es: seq<Enemy>, k: int)
  {
    0 <= k < |es| && InRange(p, es[k]) && forall j :: 0 <= j < k ==> !InRange(p, es[j])
  }

  /** The index `tryHit`'s loop stops at, or -1. */
  function TargetIndex(p: Projectile, es: seq<Enemy>): (k: int)
    ensures -1 <= k < |es|
    ensures k >= 0 ==> FirstInRange(p, es, k)
    ensures k == -1 <==> forall j :: 0 <= j < |es| ==> !InRange(p, es[j])
  {
    if |es| == 0 then -1
    else if InRange(p, es[0]) then 0
    else
      var k := TargetIndex(p, es[1..]);
      assert forall j :: 1 <= j < |es| ==> es[j] == es[1..][j - 1];
      if k < 0 then -1 else k + 1
  }

  datatype HitOutcome = HitOutcome(hit: bool, enemies: seq<Enemy>, chest: Option<Chest>)

  /** What a projectile's hit does to enemy e. */
  function Strike(p: Projectile, e: Enemy): DamageOutcome
  {
    var dx := e.pos.x - p.pos.x;
    var dy := e.pos.y - p.pos.y;
    TakeDamage(e, p.damage, dx * HitPush, dy * HitPush)
  }

  /** `tryHit(enemies)`: the first live enemy within range takes the
      projectile's damage, pushed along the offset by 5 percent of it;
      nothing else changes. */
  function TryHit(p: Projectile, es: seq<Enemy>): (r: HitOutcome)
    ensures r.hit <==> exists j :: 0 <= j < |es| && InRange(p, es[j])
    ensures |r.enemies| == |es|
    ensures !r.hit ==> r.enemies == es && r.chest.None?
    ensures forall k :: FirstInRange(p, es, k) ==>
      r.enemies == es[k := Strike(p, es[k]).enemy] && r.chest == Strike(p, es[k]).chest
  {
    var k := TargetIndex(p, es);
    if k < 0 then HitOutcome(false, es, None)
    else
      var o := Strike(p, es[k]);
      HitOutcome(true, es[k := o.enemy], o.chest)
  }

  /** Only one index can be the first in range. */
  lemma FirstInRangeUnique(p: Projectile, es: seq<Enemy>, k: int, m: int)
    requires FirstInRange(p, es, k) && FirstInRange(p, es, m)
    ensures k == m
  {
  }

  // ---------------------------------------------------------------------
  // CombatSystem.update

  /** Array.prototype.filter with a per-position keep/drop flag: the elements
      whose flag is false, in their original order. */
  function Keep<T>(xs: seq<T>, drop: seq<bool>): seq<T>
    requires |xs| == |drop|
  {
    if |xs| == 0 then []
    else (if drop[0] then [] else [xs[0]]) + Keep(xs[1..], drop[1..])
  }

  /** Keep of an extended list. */
  lemma {:induction false} KeepSnoc<T>(xs: seq<T>, drop: seq<bool>, x: T, d: bool)
    requires |xs| == |drop|
    ensures Keep(xs + [x], drop + [d]) == Keep(xs, drop) + (if d then [] else [x])
  {
    if |xs| > 0 {
      assert (xs + [x])[1..] == xs[1..] + [x];
      assert (drop + [d])[1..] == drop[1..] + [d];
      KeepSnoc(xs[1..], drop[1..], x, d);
    }
  }

  /** Every element Keep returns is one of the inputs whose flag is false. */
  lemma {:induction false} KeepMember<T>(xs: seq<T>, drop: seq<bool>, y: T)
    requires |xs| == |drop|
    ensures y in Keep(xs, drop) <==> exists i :: 0 <= i < |xs| && !drop[i] && xs[i] == y
  {
    if |xs| > 0 {
      KeepMember(xs[1..], drop[1..], y);
      assert forall i :: 1 <= i < |xs| ==> xs[i] == xs[1..][i - 1] && drop[i] == drop[1..][i - 1];
      if y in Keep(xs[1..], drop[1..]) {
        var i :| 0 <= i < |xs[1..]| && !drop[1..][i] && xs[1..][i] == y;
        assert !drop[i + 1] && xs[i + 1] == y;
      }
    }
  }

  /** Each projectile after this frame's move. */
  function AdvanceAll(ps: seq<Projectile>, dt: real): (r: seq<Projectile>)
    ensures |r| == |ps| && forall i :: 0 <= i < |ps| ==> r[i] == Advance(ps[i], dt).p
  {
    seq(|ps|, i requires 0 <= i < |ps| => Advance(ps[i], dt).p)
  }

  datatype Resolved = Resolved(kept: seq<Projectile>, dead: seq<bool>, enemies: seq<Enemy>, chests: seq<Chest>)

  function ChestList(c: Option<Chest>): seq<Chest>
  {
    if c.Some? then [c.value] else []
  }

  /** What one projectile does this frame to the enemies it meets. `p.update(dt)`
      runs first; only a projectile that has not expired goes on to
      `tryHit` (the `||` short-circuits). */
  function Fate(p: Projectile, es: seq<Enemy>, dt: real): (r: HitOutcome)
    ensures |r.enemies| == |es|
    ensures !r.hit ==> r.enemies == es && r.chest.None?
  {
    var a := Advance(p, dt);
    if a.expired then HitOutcome(false, es, None) else TryHit(a.p, es)
  }

  /** The projectile loop of `update(dt)`, which walks the list from the last
      projectile to the first. A projectile is dead once it expires or, if it
      has not expired, once its `tryHit` lands. `dead` records each
      projectile's fate. */
  function Resolve(ps: seq<Projectile>, es: seq<Enemy>, dt: real): (r: Resolved)
    decreases |ps|
    ensures |r.dead| == |ps| && |r.enemies| == |es|
    ensures forall i :: 0 <= i < |ps| && Advance(ps[i], dt).expired ==> r.dead[i]
    ensures r.kept == Keep(AdvanceAll(ps, dt), r.dead)
    ensures forall q :: q in r.kept ==> q.lifetime > 0.0
  {
    if |ps| == 0 then Resolved([], [], es, [])
    else
      var n := |ps|;
      var a := Advance(ps[n - 1], dt);
      var h := Fate(ps[n - 1], es, dt);
      var dead := a.expired || h.hit;
      var rest := Resolve(ps[..n - 1], h.enemies, dt);
      var kept := rest.kept + (if dead then [] else [a.p]);
      ResolveStep(ps, dt, rest.dead, dead);
      Resolved(kept, rest.dead + [dead], rest.enemies, ChestList(h.chest) + rest.chests)
  }

  /** The bookkeeping for one step of Resolve. */
  lemma ResolveStep(ps: seq<Projectile>, dt: real, drop: seq<bool>, d: bool)
    requires |ps| > 0 && |drop| == |ps| - 1
    ensures AdvanceAll(ps, dt) == AdvanceAll(ps[..|ps| - 1], dt) + [Advance(ps[|ps| - 1], dt).p]
    ensures Keep(AdvanceAll(ps, dt), drop + [d])
      == Keep(AdvanceAll(ps[..|ps| - 1], dt), drop) + (if d then [] else [Advance(ps[|ps| - 1], dt).p])
  {
    var n := |ps|;
    assert AdvanceAll(ps, dt) == AdvanceAll(ps[..n - 1], dt) + [Advance(ps[n - 1], dt).p];
    KeepSnoc(AdvanceAll(ps[..n - 1], dt), drop, Advance(ps[n - 1], dt).p, d);
  }

  /** An expired projectile deals no damage: if every projectile expires
      this frame, no enemy is touched, no chest drops, and none survive. */
  lemma ExpiredHarmless(ps: seq<Projectile>, es: seq<Enemy>, dt: real)
    requires forall i :: 0 <= i < |ps| ==> ps[i].lifetime - dt <= 0.0
    ensures Resolve(ps, es, dt).enemies == es
    ensures Resolve(ps, es, dt).chests == []
    ensures Resolve(ps, es, dt).kept == []
  {
    var r := Resolve(ps, es, dt);
    assert forall k :: 0 <= k < |ps| ==> Advance(ps[k], dt).expired;
    Untouched(ps, es, dt, 0);
    ResolveMeaning(ps, es, dt);
    if |r.kept| > 0 {
      KeepMember(AdvanceAll(ps, dt), r.dead, r.kept[0]);
    }
  }

  // The same loop indexed from the front: projectile i meets the enemies as
  // the projectiles after it in the list have left them.

  /** The enemy list once the projectiles from index i to the end have been
      resolved, the last one first. */
  function EnemiesFrom(ps: seq<Projectile>, es: seq<Enemy>, dt: real, i: int): (r: seq<Enemy>)
    requires 0 <= i <= |ps|
    decreases |ps| - i
    ensures |r| == |es|
  {
    if i == |ps| then es else Fate(ps[i], EnemiesFrom(ps, es, dt, i + 1), dt).enemies
  }

  /** The chest, if any, that projectile i knocks out of an enemy. */
  function ChestAt(ps: seq<Projectile>, es: seq<Enemy>, dt: real, i: int): seq<Chest>
    requires 0 <= i < |ps|
  {
    ChestList(Fate(ps[i], EnemiesFrom(ps, es, dt, i + 1), dt).chest)
  }

  /** The chests dropped while the projectiles from index i to the end are
      resolved, in the order they drop. */
  function ChestsFrom(ps: seq<Projectile>, es: seq<Enemy>, dt: real, i: int): seq<Chest>
    requires 0 <= i <= |ps|
    decreases |ps| - i
  {
    if i == |ps| then [] else ChestsFrom(ps, es, dt, i + 1) + ChestAt(ps, es, dt, i)
  }

  /** Projectile i is used up this frame: it expires, or it strikes one of
      the enemies as the later projectiles left them. */
  predicate Dies(ps: seq<Projectile>, es: seq<Enemy>, dt: real, i: int)
    requires 0 <= i < |ps|
  {
    Advance(ps[i], dt).expired || TryHit(Advance(ps[i], dt).p, EnemiesFrom(ps, es, dt, i + 1)).hit
  }

  /** The fate of every projectile, by position. */
  function Fates(ps: seq<Projectile>, es: seq<Enemy>, dt: real): (r: seq<bool>)
    ensures |r| == |ps| && forall i :: 0 <= i < |ps| ==> (r[i] <==> Dies(ps, es, dt, i))
  {
    seq(|ps|, i requires 0 <= i < |ps| => Dies(ps, es, dt, i))
  }

  lemma AppendAssoc<T>(a: seq<T>, b: seq<T>, c: seq<T>)
    ensures (a + b) + c == a + (b + c)
  {
  }

  lemma AppendEmpty<T>(a: seq<T>)
    ensures a + [] == a
  {
  }

  /** The loop after it has handled the projectiles from index m to the end
      and is left with the first m: it ends with the enemies of the
      front-indexed account, drops the chests still missing from it, and
      decides each of the first m fates as that account does. */
  lemma {:induction false} ResolveUpTo(ps: seq<Projectile>, es: seq<Enemy>, dt: real, m: int)
    requires 0 <= m <= |ps|
    ensures var r := Resolve(ps[..m], EnemiesFrom(ps, es, dt, m), dt);
      && r.enemies == EnemiesFrom(ps, es, dt, 0)
      && ChestsFrom(ps, es, dt, 0) == ChestsFrom(ps, es, dt, m) + r.chests
      && forall i :: 0 <= i < m ==> (r.dead[i] <==> Dies(ps, es, dt, i))
    decreases m
  {
    if m > 0 {
      ResolveUpTo(ps, es, dt, m - 1);
      var q := ps[..m];
      assert q[..m - 1] == ps[..m - 1];
      assert q[m - 1] == ps[m - 1];
      var met := EnemiesFrom(ps, es, dt, m);
      var h := Fate(ps[m - 1], met, dt);
      assert h.enemies == EnemiesFrom(ps, es, dt, m - 1);
      var rest := Resolve(ps[..m - 1], h.enemies, dt);
      var r := Resolve(q, met, dt);
      assert r.chests == ChestList(h.chest) + rest.chests;
      assert r.dead == rest.dead + [Advance(ps[m - 1], dt).expired || h.hit];
      forall i | 0 <= i < m
        ensures r.dead[i] <==> Dies(ps, es, dt, i)
      {
        if i < m - 1 {
          assert r.dead[i] == rest.dead[i];
        }
      }
      assert ChestsFrom(ps, es, dt, m - 1) == ChestsFrom(ps, es, dt, m) + ChestList(h.chest);
      AppendAssoc(ChestsFrom(ps, es, dt, m), ChestList(h.chest), rest.chests);
      assert ChestsFrom(ps, es, dt, 0) == ChestsFrom(ps, es, dt, m - 1) + rest.chests;
    } else {
      assert ps[..0] == [];
      AppendEmpty(ChestsFrom(ps, es, dt, 0));
    }
  }

  /** The loop, walked back to front, decides the same fates, enemies and
      chests as the front-indexed account: every projectile is spent
      exactly when it expires or lands a hit, and a spent projectile is
      never tried again. */
  lemma ResolveMeaning(ps: seq<Projectile>, es: seq<Enemy>, dt: real)
    ensures Resolve(ps, es, dt).dead == Fates(ps, es, dt)
    ensures Resolve(ps, es, dt).enemies == EnemiesFrom(ps, es, dt, 0)
    ensures Resolve(ps, es, dt).chests == ChestsFrom(ps, es, dt, 0)
  {
    var m := |ps|;
    var r := Resolve(ps, es, dt);
    assert Resolve(ps[..m], EnemiesFrom(ps, es, dt, m), dt) == r by {
      assert ps[..m] == ps;
      assert EnemiesFrom(ps, es, dt, m) == es;
    }
    assert ChestsFrom(ps, es, dt, m) == [];
    assert [] + r.chests == r.chests;
    ResolveUpTo(ps, es, dt, m);
    var f := Fates(ps, es, dt);
    assert r.dead == f by {
      forall i | 0 <= i < m
        ensures r.dead[i] == f[i]
      {
      }
    }
  }

  /** A projectile that expires, or finds no live enemy of es in reach,
      leaves the enemies alone. */
  predicate Harmless(p: Projectile, es: seq<Enemy>, dt: real)
  {
    Advance(p, dt).expired || forall j :: 0 <= j < |es| ==> !InRange(Advance(p, dt).p, es[j])
  }

  /** If every projectile from index i on is harmless to es, they leave the
      enemies as they were and drop no chest. */
  lemma {:induction false} Untouched(ps: seq<Projectile>, es: seq<Enemy>, dt: real, i: int)
    requires 0 <= i <= |ps|
    requires forall k :: i <= k < |ps| ==> Harmless(ps[k], es, dt)
    ensures EnemiesFrom(ps, es, dt, i) == es && ChestsFrom(ps, es, dt, i) == []
    decreases |ps| - i
  {
    if i < |ps| {
      Untouched(ps, es, dt, i + 1);
      var a := Advance(ps[i], dt);
      var h := Fate(ps[i], es, dt);
      assert Harmless(ps[i], es, dt);
      if !a.expired {
        assert !TryHit(a.p, es).hit;
      }
      assert !h.hit && h.enemies == es && h.chest.None?;
      assert EnemiesFrom(ps, es, dt, i) == h.enemies;
      assert ChestsFrom(ps, es, dt, i) == [] + ChestList(h.chest);
    }
  }

  /** With no live enemy in reach of any moved projectile, nothing is hit:
      the projectiles that expire are the ones removed, and the enemies and
      chests are untouched. */
  lemma NothingInReach(ps: seq<Projectile>, es: seq<Enemy>, dt: real)
    requires forall i, j :: 0 <= i < |ps| && 0 <= j < |es| ==> !InRange(Advance(ps[i], dt).p, es[j])
    ensures forall i :: 0 <= i < |ps| ==> Resolve(ps, es, dt).dead[i] == Advance(ps[i], dt).expired
    ensures Resolve(ps, es, dt).enemies == es
    ensures Resolve(ps, es, dt).chests == []
  {
    Untouched(ps, es, dt, 0);
    ResolveMeaning(ps, es, dt);
    forall i | 0 <= i < |ps|
      ensures Resolve(ps, es, dt).dead[i] == Advance(ps[i], dt).expired
    {
      Untouched(ps, es, dt, i + 1);
    }
  }

  /** A lone enemy drops one chest, where it ends up, exactly when the
      projectiles kill it this frame, and none otherwise; one that was
      already destroyed is left as it was. */
  lemma {:induction false} LoneEnemyDrops(ps: seq<Projectile>, e: Enemy, dt: real, i: int)
    requires 0 <= i <= |ps|
    ensures e.destroyed ==> EnemiesFrom(ps, [e], dt, i) == [e]
    ensures ChestsFrom(ps, [e], dt, i) == Drops([e], EnemiesFrom(ps, [e], dt, i))
    decreases |ps| - i
  {
    if i < |ps| {
      LoneEnemyDrops(ps, e, dt, i + 1);
      var before := EnemiesFrom(ps, [e], dt, i + 1);
      var h := Fate(ps[i], before, dt);
      if h.hit {
        var a := Advance(ps[i], dt).p;
        assert FirstInRange(a, before, 0);
        assert InRange(a, before[0]);
      }
    }
  }

  /** `enemies.filter((e) => !e.destroyed)`. */
  function Alive(es: seq<Enemy>): seq<Enemy>
  {
    if |es| == 0 then []
    else (if es[0].destroyed then [] else [es[0]]) + Alive(es[1..])
  }

  /** The pruned list holds exactly the listed enemies that are not
      destroyed, and is no longer than the list. */
  lemma {:induction false} AliveMembers(es: seq<Enemy>)
    ensures |Alive(es)| <= |es|
    ensures forall e :: e in Alive(es) <==> e in es && !e.destroyed
  {
    if |es| > 0 {
      AliveMembers(es[1..]);
      assert es == [es[0]] + es[1..];
    }
  }

  /** Filtering distributes over concatenation, so survivors keep their
      relative order. */
  lemma {:induction false} AliveAppend(a: seq<Enemy>, b: seq<Enemy>)
    ensures Alive(a + b) == Alive(a) + Alive(b)
  {
    if |a| > 0 {
      var h := if a[0].destroyed then [] else [a[0]];
      assert (a + b)[0] == a[0];
      assert (a + b)[1..] == a[1..] + b;
      assert Alive(a + b) == h + Alive(a[1..] + b);
      AliveAppend(a[1..], b);
      assert Alive(a) == h + Alive(a[1..]);
    } else {
      assert a + b == b;
    }
  }

  datatype CombatState = CombatState(projectiles: seq<Projectile>, enemies: seq<Enemy>)

  datatype UpdateOutcome = UpdateOutcome(state: CombatState, chests: seq<Chest>)

  /** `CombatSystem.update(dt)`: resolve the projectiles, then drop destroyed
      enemies. Chests dropped by kills are returned. */
  function Update(c: CombatState, dt: real): (r: UpdateOutcome)
    ensures forall e :: e in r.state.enemies ==> !e.destroyed
    ensures |r.state.enemies| <= |c.enemies|
    ensures |r.state.projectiles| <= |c.projectiles|
    ensures forall q :: q in r.state.projectiles ==> q.lifetime > 0.0
    ensures r.state.projectiles == Keep(AdvanceAll(c.projectiles, dt), Fates(c.projectiles, c.enemies, dt))
    ensures r.state.enemies == Alive(EnemiesFrom(c.projectiles, c.enemies, dt, 0))
    ensures r.chests == ChestsFrom(c.projectiles, c.enemies, dt, 0)
  {
    var res := Resolve(c.projectiles, c.enemies, dt);
    KeepLength(AdvanceAll(c.projectiles, dt), res.dead);
    AliveMembers(res.enemies);
    ResolveMeaning(c.projectiles, c.enemies, dt);
    UpdateOutcome(CombatState(res.kept, Alive(res.enemies)), res.chests)
  }

  lemma {:induction false} KeepLength<T>(xs: seq<T>, drop: seq<bool>)
    requires |xs| == |drop|
    ensures |Keep(xs, drop)| <= |xs|
  {
    if |xs| > 0 {
      KeepLength(xs[1..], drop[1..]);
    }
  }

  /** `castMagic(x, y, targetX, targetY)`: one new projectile from (x, y)
      toward the target at speed 280; len is `Math.hypot` of the offset. */
  function CastMagic(c: CombatState, x: real, y: real, tx: real, ty: real, len: real): (r: CombatState)
    requires IsHypot(tx - x, ty - y, len)
    ensures r.enemies == c.enemies
    ensures |r.projectiles| == |c.projectiles| + 1 && r.projectiles[..|c.projectiles|] == c.projectiles
    ensures var p := r.projectiles[|c.projectiles|];
      && p.pos == Pos(x, y) && p.lifetime == Lifetime && p.damage == ProjectileDamage
      && (tx == x && ty == y ==> p.vx == 0.0 && p.vy == 0.0)
      && (len > 0.0 ==> p.vx * len == (tx - x) * CastSpeed && p.vy * len == (ty - y) * CastSpeed)
      && (len > 0.0 ==> Len2(p.vx, p.vy) == CastSpeed * CastSpeed)
  {
    var p := NewProjectile(x, y, tx - x, ty - y, CastSpeed, len);
    assert (c.projectiles + [p])[..|c.projectiles|] == c.projectiles;
    CombatState(c.projectiles + [p], c.enemies)
  }

  // ---------------------------------------------------------------------
  // meleeAttack

  /** The swing at (x, y) with the given radius strikes e, which is dist away. */
  predicate MeleeHits(e: Enemy, radius: real, dist: real)
  {
    !e.destroyed && dist <= radius && dist > MeleeMinDist
  }

  /** The swing's effect on one enemy: 2 damage and a push of 20 pixels
      directly away from (x, y). */
  function MeleeOne(e: Enemy, x: real, y: real, radius: real, dist: real): (r: DamageOutcome)
    requires IsHypot(e.pos.x - x, e.pos.y - y, dist)
    ensures !MeleeHits(e, radius, dist) ==> r.enemy == e && r.chest.None?
    ensures MeleeHits(e, radius, dist) ==>
      && r.enemy.health == MaxReal(0.0, e.health - MeleeDamage)
      && (r.enemy.pos.x - e.pos.x) * dist == (e.pos.x - x) * MeleePush
      && (r.enemy.pos.y - e.pos.y) * dist == (e.pos.y - y) * MeleePush
      && Len2(r.enemy.pos.x - e.pos.x, r.enemy.pos.y - e.pos.y) == MeleePush * MeleePush
      && r.enemy.damageDisplayTimer == BarTime
      && r.enemy.destroyed == (r.enemy.health <= 0.0)
    ensures r.enemy.blinkTimer == e.blinkTimer && r.enemy.blinkState == e.blinkState
    ensures r.chest == if !e.destroyed && r.enemy.destroyed then Some(NewChest(r.enemy.pos)) else None
  {
    if MeleeHits(e, radius, dist) then
      var dx := e.pos.x - x;
      var dy := e.pos.y - y;
      var nx := dx / dist;
      var ny := dy / dist;
      ScaleBack(dx, dist, MeleePush);
      ScaleBack(dy, dist, MeleePush);
      var o := TakeDamage(e, MeleeDamage, nx * MeleePush, ny * MeleePush);
      HypotScale(o.enemy.pos.x - e.pos.x, o.enemy.pos.y - e.pos.y, dx, dy, dist, MeleePush);
      o
    else
      DamageOutcome(e, None)
  }

  /** `dists[i]` is `Math.hypot` of enemy i's offset from (x, y). */
  predicate Distances(es: seq<Enemy>, x: real, y: real, dists: seq<real>)
  {
    |dists| == |es| && forall i :: 0 <= i < |es| ==> IsHypot(es[i].pos.x - x, es[i].pos.y - y, dists[i])
  }

  datatype MeleeOutcome = MeleeOutcome(enemies: seq<Enemy>, chests: seq<Chest>)

  /** `meleeAttack(x, y, radius)`: every enemy is struck or left alone on its
      own; the list keeps its length and order. */
  function Melee(es: seq<Enemy>, x: real, y: real, radius: real, dists: seq<real>): (r: MeleeOutcome)
    requires Distances(es, x, y, dists)
    ensures |r.enemies| == |es|
    ensures forall i :: 0 <= i < |es| ==> r.enemies[i] == MeleeOne(es[i], x, y, radius, dists[i]).enemy
    ensures forall i :: 0 <= i < |es| && !MeleeHits(es[i], radius, dists[i]) ==> r.enemies[i] == es[i]
    ensures r.chests == Drops(es, r.enemies)
  {
    if |es| == 0 then MeleeOutcome([], [])
    else
      var o := MeleeOne(es[0], x, y, radius, dists[0]);
      var rest := Melee(es[1..], x, y, radius, dists[1..]);
      assert ([o.enemy] + rest.enemies)[1..] == rest.enemies;
      MeleeOutcome([o.enemy] + rest.enemies, ChestList(o.chest) + rest.chests)
  }

  /** `meleeAttack` on the combat system's enemy list. */
  function MeleeAttack(c: CombatState, x: real, y: real, radius: real, dists: seq<real>): (r: (CombatState, seq<Chest>))
    requires Distances(c.enemies, x, y, dists)
    ensures r.0.projectiles == c.projectiles && |r.0.enemies| == |c.enemies|
    ensures forall i :: 0 <= i < |c.enemies| ==>
      r.0.enemies[i] == MeleeOne(c.enemies[i], x, y, radius, dists[i]).enemy
    ensures r.1 == Drops(c.enemies, r.0.enemies)
  {
    var m := Melee(c.enemies, x, y, radius, dists);
    (CombatState(c.projectiles, m.enemies), m.chests)
  }
}
