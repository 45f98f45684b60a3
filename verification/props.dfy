/** Breakable furniture and item pickups (src/props.ts). Drawing, the debris
    shard and the smash sound are presentation and not modelled; Pixi's
    `destroy()` is the `destroyed` flag. */
module Props {
  import opened Inventory

  datatype Kind = Table | Chair

  datatype Breakable = Breakable(kind: Kind, hp: real, destroyed: bool)

  /** `new Breakable(kind)`: a table takes 6 hits' worth of damage, a chair 3. */
  function NewBreakable(kind: Kind := Table): (b: Breakable)
    ensures b.kind == kind && !b.destroyed
    ensures kind == Table ==> b.hp == 6.0
    ensures kind == Chair ==> b.hp == 3.0
  {
    Breakable(kind, if kind == Table then 6.0 else 3.0, false)
  }

  /** `takeDamage(dmg)`: hp drops by exactly dmg, with no clamp, and the
      breakable is destroyed once hp reaches 0 or below. */
  function TakeDamage(b: Breakable, dmg: real): (r: Breakable)
    ensures r.kind == b.kind && r.hp == b.hp - dmg
    ensures r.destroyed <==> b.destroyed || r.hp <= 0.0
    ensures !b.destroyed && r.hp > 0.0 ==> r == b.(hp := b.hp - dmg)
  {
    var hp := b.hp - dmg;
    Breakable(b.kind, hp, b.destroyed || hp <= 0.0)
  }

  function Sum(xs: seq<real>): real
  {
    if |xs| == 0 then 0.0 else Sum(xs[..|xs| - 1]) + xs[|xs| - 1]
  }

  /** A run of hits, in order. */
  function Hits(b: Breakable, dmgs: seq<real>): Breakable
  {
    if |dmgs| == 0 then b else TakeDamage(Hits(b, dmgs[..|dmgs| - 1]), dmgs[|dmgs| - 1])
  }

  /** After a run of hits, hp is the starting hp minus the total damage, and
      the breakable is destroyed exactly when some prefix of the run brought
      hp to 0 or below (or it was destroyed to begin with). */
  lemma {:induction false} HitsAccumulate(b: Breakable, dmgs: seq<real>)
    ensures Hits(b, dmgs).hp == b.hp - Sum(dmgs)
    ensures Hits(b, dmgs).kind == b.kind
    ensures Hits(b, dmgs).destroyed <==>
      b.destroyed || exists k :: 1 <= k <= |dmgs| && b.hp - Sum(dmgs[..k]) <= 0.0
  {
    if |dmgs| > 0 {
      var n := |dmgs|;
      var init := dmgs[..n - 1];
      HitsAccumulate(b, init);
      assert dmgs[..n] == dmgs;
      forall k | 1 <= k <= n - 1
        ensures dmgs[..k] == init[..k]
      {
      }
      if Hits(b, dmgs).destroyed && !b.destroyed && !Hits(b, init).destroyed {
        assert b.hp - Sum(dmgs[..n]) <= 0.0;
      }
    }
  }

  datatype Pickup = Pickup(item: Item, destroyed: bool)

  datatype CollectOutcome = CollectOutcome(ok: bool, pickup: Pickup, inv: Inventory)

  /** `collect(inv)`: the carried item moves into the bag and the pickup is
      removed. */
  function Collect(p: Pickup, inv: Inventory): (r: CollectOutcome)
    ensures r.ok && r.pickup.destroyed && r.pickup.item == p.item
    ensures |r.inv.bag| == |inv.bag| + 1 && r.inv.bag[..|inv.bag|] == inv.bag
    ensures r.inv.bag[|inv.bag|] == p.item
    ensures r.inv.equipment == inv.equipment && r.inv.gold == inv.gold
    ensures Owned(r.inv) == Owned(inv) + multiset{p.item}
  {
    CollectOutcome(true, p.(destroyed := true), Add(inv, p.item))
  }
}
