/** Treasure chests (src/loot.ts): a chest opens once and pays its gold once.
    The chest's sprite and frame loading are presentation and not modelled;
    the inventory it pays into is passed to each call. */
module Loot {
  import opened Base
  import opened Inventory

  /** Gold granted by opening a chest. */
  const ChestGold: int := 100

  datatype Chest = Chest(pos: Pos, isOpen: bool)

  /** A chest as spawned: closed. */
  function NewChest(pos: Pos): (c: Chest)
    ensures !c.isOpen && c.pos == pos
  {
    Chest(pos, false)
  }

  datatype OpenOutcome = OpenOutcome(ok: bool, chest: Chest, inv: Inventory)

  /** `tryOpen()`. */
  function TryOpen(c: Chest, inv: Inventory): (r: OpenOutcome)
    ensures r.ok <==> !c.isOpen
    ensures r.chest.isOpen && r.chest.pos == c.pos
    ensures r.inv.bag == inv.bag && r.inv.equipment == inv.equipment
    ensures r.inv.gold == inv.gold + (if r.ok then ChestGold else 0)
  {
    if c.isOpen then OpenOutcome(false, c, inv)
    else OpenOutcome(true, c.(isOpen := true), AddGold(inv, ChestGold as real))
  }

  /** The gold a chest pays over a run of `tryOpen` calls, where call k finds
      the inventory in state invs[k] (anything else may have changed it in
      between); also returns the chest afterwards. */
  function Payouts(c: Chest, invs: seq<Inventory>): (r: (int, Chest))
    decreases |invs|
  {
    if |invs| == 0 then (0, c)
    else
      var o := TryOpen(c, invs[0]);
      var rest := Payouts(o.chest, invs[1..]);
      (o.inv.gold - invs[0].gold + rest.0, rest.1)
  }

  /** Across any sequence of calls a chest grants at most 100 gold in total:
      exactly 100 if it started closed and was tried at least once, else none.
      It ends opened as soon as it has been tried, and never closes again. */
  lemma {:induction false} PayoutsAtMostOnce(c: Chest, invs: seq<Inventory>)
    ensures Payouts(c, invs).0 == (if !c.isOpen && |invs| > 0 then ChestGold else 0)
    ensures Payouts(c, invs).1.isOpen == (c.isOpen || |invs| > 0)
    ensures Payouts(c, invs).1.pos == c.pos
    decreases |invs|
  {
    if |invs| > 0 {
      var o := TryOpen(c, invs[0]);
      PayoutsAtMostOnce(o.chest, invs[1..]);
    }
  }
}
