/** The player's inventory: a bag of items in insertion order, one optional
    item per equipment slot, and a gold counter (src/inventory.ts). */
module Inventory {
  import opened Base

  /** Where an item goes: the seven equipment slots plus `potion`, which is
      never equippable. */
  datatype Slot = Weapon | Armor | Helmet | Boots | Offhand | Amulet | Ring | Potion

  /** The slots of the `Equipment` record (`ItemSlot` in the source). */
  type GearSlot = s: Slot | s != Potion witness Weapon

  datatype Item = Item(
    id: string,
    name: string,
    slot: Slot,
    attack: Option<real>,
    defense: Option<real>,
    magicPower: Option<real>)

  /** `Partial<Record<ItemSlot, Item>>`: a slot is either absent or holds one item. */
  type Equipment = map<GearSlot, Item>

  datatype Inventory = Inventory(bag: seq<Item>, equipment: Equipment, gold: int)

  /** A fresh `InventorySystem`. */
  function Empty(): (inv: Inventory)
    ensures |inv.bag| == 0 && |inv.equipment| == 0 && inv.gold == 0
  {
    Inventory([], map[], 0)
  }

  // ---------------------------------------------------------------------
  // Everything the player owns, as a multiset

  /** The item worn in slot s, as a multiset of zero or one element. */
  function WornIn(eq: Equipment, s: GearSlot): multiset<Item>
  {
    if s in eq then multiset{eq[s]} else multiset{}
  }

  /** The slots of the `ItemSlot` union, each once. */
  const GearSlots: seq<GearSlot> := [Weapon, Armor, Helmet, Boots, Offhand, Amulet, Ring]

  /** The items worn in the listed slots. */
  function WornAmong(eq: Equipment, slots: seq<GearSlot>): multiset<Item>
  {
    if |slots| == 0 then multiset{} else WornIn(eq, slots[0]) + WornAmong(eq, slots[1..])
  }

  /** All worn items. */
  function Worn(eq: Equipment): multiset<Item>
  {
    WornAmong(eq, GearSlots)
  }

  /** Every item the player owns, carried or worn. */
  function Owned(inv: Inventory): multiset<Item>
  {
    multiset(inv.bag) + Worn(inv.equipment)
  }

  predicate Distinct(slots: seq<GearSlot>)
  {
    forall i, j :: 0 <= i < j < |slots| ==> slots[i] != slots[j]
  }

  /** Over a list naming each slot at most once, writing slot s trades
      whatever s held for item if s is listed, and changes nothing otherwise. */
  lemma {:induction false} WornAmongUpdate(eq: Equipment, s: GearSlot, item: Item, slots: seq<GearSlot>)
    requires Distinct(slots)
    ensures s in slots ==>
      WornAmong(eq[s := item], slots) + WornIn(eq, s) == WornAmong(eq, slots) + multiset{item}
    ensures s !in slots ==> WornAmong(eq[s := item], slots) == WornAmong(eq, slots)
  {
    if |slots| > 0 {
      var rest := slots[1..];
      var eq2 := eq[s := item];
      assert Distinct(rest);
      WornAmongUpdate(eq, s, item, rest);
      var a2, a := WornIn(eq2, slots[0]), WornIn(eq, slots[0]);
      assert WornAmong(eq2, slots) == a2 + WornAmong(eq2, rest);
      assert WornAmong(eq, slots) == a + WornAmong(eq, rest);
      if slots[0] == s {
        forall j | 0 <= j < |rest|
          ensures rest[j] != s
        {
          assert rest[j] == slots[j + 1];
        }
        assert a2 == multiset{item};
        UnionTrade(WornAmong(eq, rest), a, multiset{item});
      } else {
        assert a2 == a;
        if s in slots {
          assert s in rest;
          UnionShift(a, WornAmong(eq2, rest), WornIn(eq, s), WornAmong(eq, rest), multiset{item});
        }
      }
    }
  }

  lemma UnionTrade<T>(r: multiset<T>, a: multiset<T>, m: multiset<T>)
    ensures (m + r) + a == (a + r) + m
  {
    forall o ensures ((m + r) + a)[o] == ((a + r) + m)[o] {
    }
  }

  /** Putting item into slot s trades whatever was there for item. */
  lemma WornUpdate(eq: Equipment, s: GearSlot, item: Item)
    ensures Worn(eq[s := item]) + WornIn(eq, s) == Worn(eq) + multiset{item}
  {
    assert s in GearSlots;
    WornAmongUpdate(eq, s, item, GearSlots);
  }

  // ---------------------------------------------------------------------
  // Array.prototype.findIndex

  /** `bag.findIndex(p)`: the first index whose item satisfies p, or -1. */
  function FindIndex(bag: seq<Item>, p: Item -> bool): (r: int)
    ensures -1 <= r < |bag|
    ensures r >= 0 ==> p(bag[r]) && forall j :: 0 <= j < r ==> !p(bag[j])
    ensures r == -1 <==> forall j :: 0 <= j < |bag| ==> !p(bag[j])
  {
    if |bag| == 0 then -1
    else if p(bag[0]) then 0
    else
      var k := FindIndex(bag[1..], p);
      assert forall j :: 1 <= j < |bag| ==> bag[j] == bag[1..][j - 1];
      if k < 0 then -1 else k + 1
  }

  /** i is the first position of the bag holding an item with this id. */
  predicate FirstWithId(bag: seq<Item>, id: string, i: int)
  {
    0 <= i < |bag| && bag[i].id == id && forall j :: 0 <= j < i ==> bag[j].id != id
  }

  /** i is the first position of the bag holding a potion. */
  predicate FirstPotion(bag: seq<Item>, i: int)
  {
    0 <= i < |bag| && bag[i].slot == Potion && forall j :: 0 <= j < i ==> bag[j].slot != Potion
  }

  /** The bag with position i removed (`splice(i, 1)`). */
  function RemoveAt(bag: seq<Item>, i: int): (r: seq<Item>)
    requires 0 <= i < |bag|
    ensures |r| == |bag| - 1
    ensures forall j :: 0 <= j < i ==> r[j] == bag[j]
    ensures forall j :: i <= j < |r| ==> r[j] == bag[j + 1]
    ensures multiset(r) + multiset{bag[i]} == multiset(bag)
  {
    assert bag == bag[..i] + [bag[i]] + bag[i + 1..];
    bag[..i] + bag[i + 1..]
  }

  /** The bag with x inserted before position i (`splice(i, 0, x)`). */
  function InsertAt(bag: seq<Item>, i: int, x: Item): (r: seq<Item>)
    requires 0 <= i <= |bag|
    ensures |r| == |bag| + 1
    ensures r[i] == x
    ensures forall j :: 0 <= j < i ==> r[j] == bag[j]
    ensures forall j :: i < j < |r| ==> r[j] == bag[j - 1]
    ensures multiset(r) == multiset(bag) + multiset{x}
  {
    assert bag == bag[..i] + bag[i..];
    bag[..i] + [x] + bag[i..]
  }

  /** Removing position i and inserting x at the same place replaces bag[i] by x. */
  lemma RemoveInsert(bag: seq<Item>, i: int, x: Item)
    requires 0 <= i < |bag|
    ensures InsertAt(RemoveAt(bag, i), i, x) == bag[i := x]
  {
  }

  // ---------------------------------------------------------------------
  // The four operations

  /** `add(item)`. */
  function Add(inv: Inventory, item: Item): (r: Inventory)
    ensures |r.bag| == |inv.bag| + 1 && r.bag[..|inv.bag|] == inv.bag && r.bag[|inv.bag|] == item
    ensures r.equipment == inv.equipment && r.gold == inv.gold
    ensures Owned(r) == Owned(inv) + multiset{item}
  {
    assert (inv.bag + [item])[..|inv.bag|] == inv.bag;
    Inventory(inv.bag + [item], inv.equipment, inv.gold)
  }

  /** Result of an operation that reports success as a boolean. */
  datatype Outcome = Outcome(ok: bool, inv: Inventory)

  /** The source's conditions for `equip` to proceed once the item is found:
      it is not a potion, and its slot does not already hold an item with
      the same id. */
  predicate Equippable(inv: Inventory, item: Item)
  {
    item.slot != Potion && !(item.slot in inv.equipment && inv.equipment[item.slot].id == item.id)
  }

  /** `equip(itemId)`: the first bag item with that id moves into its slot;
      the item it displaces, if any, takes its place in the bag. */
  function Equip(inv: Inventory, id: string): (r: Outcome)
    ensures !r.ok ==> r.inv == inv
    ensures r.ok <==> exists i :: FirstWithId(inv.bag, id, i) && Equippable(inv, inv.bag[i])
    ensures forall i :: FirstWithId(inv.bag, id, i) && r.ok ==>
      var item := inv.bag[i];
      && r.inv.equipment == inv.equipment[item.slot := item]
      && r.inv.gold == inv.gold
      && (item.slot in inv.equipment ==> r.inv.bag == inv.bag[i := inv.equipment[item.slot]])
      && (item.slot !in inv.equipment ==> r.inv.bag == RemoveAt(inv.bag, i))
    ensures r.ok ==> Owned(r.inv) == Owned(inv)
  {
    var idx := FindIndex(inv.bag, (it: Item) => it.id == id);
    if idx < 0 then
      assert forall i :: !FirstWithId(inv.bag, id, i);
      Outcome(false, inv)
    else
      assert FirstWithId(inv.bag, id, idx);
      assert forall i :: FirstWithId(inv.bag, id, i) ==> i == idx;
      var item := inv.bag[idx];
      if item.slot == Potion then
        Outcome(false, inv)
      else
        var slot: GearSlot := item.slot;
        var prev := if slot in inv.equipment then Some(inv.equipment[slot]) else None;
        if prev.Some? && prev.value.id == item.id then
          Outcome(false, inv)
        else
          var equipment := inv.equipment[slot := item];
          var bag1 := RemoveAt(inv.bag, idx);
          var bag2 := if prev.Some? then InsertAt(bag1, idx, prev.value) else bag1;
          EquipConserves(inv, idx, prev, bag2, equipment);
          Outcome(true, Inventory(bag2, equipment, inv.gold))
  }

  /** The bag and equipment `equip` produces own the same items as before. */
  lemma EquipConserves(inv: Inventory, i: int, prev: Option<Item>, bag: seq<Item>, eq: Equipment)
    requires 0 <= i < |inv.bag| && inv.bag[i].slot != Potion
    requires prev == (if inv.bag[i].slot in inv.equipment then Some(inv.equipment[inv.bag[i].slot]) else None)
    requires bag == (if prev.Some? then InsertAt(RemoveAt(inv.bag, i), i, prev.value) else RemoveAt(inv.bag, i))
    requires eq == inv.equipment[inv.bag[i].slot := inv.bag[i]]
    ensures multiset(bag) + Worn(eq) == Owned(inv)
    ensures prev.Some? ==> bag == inv.bag[i := prev.value]
  {
    var item := inv.bag[i];
    WornUpdate(inv.equipment, item.slot, item);
    var b1 := RemoveAt(inv.bag, i);
    var displaced := WornIn(inv.equipment, item.slot);
    if prev.Some? {
      RemoveInsert(inv.bag, i, prev.value);
      assert displaced == multiset{prev.value};
    } else {
      assert displaced == multiset{};
    }
    SwapAlgebra(multiset(b1), multiset(inv.bag), Worn(eq), Worn(inv.equipment), multiset{item}, displaced, multiset(bag));
  }

  /** Union is associative, so an equation can be extended on the left. */
  lemma UnionShift<T>(a: multiset<T>, x: multiset<T>, y: multiset<T>, p: multiset<T>, q: multiset<T>)
    requires x + y == p + q
    ensures (a + x) + y == (a + p) + q
  {
    forall o ensures ((a + x) + y)[o] == ((a + p) + q)[o] {
      assert (x + y)[o] == (p + q)[o];
    }
  }

  /** The bookkeeping behind a swap: the bag loses `it` and gains `z`, the
      equipment gains `it` and loses `z`. */
  lemma SwapAlgebra<T>(b1: multiset<T>, b: multiset<T>, w2: multiset<T>, w: multiset<T>,
                       it: multiset<T>, z: multiset<T>, bag: multiset<T>)
    requires b1 + it == b && w2 + z == w + it && bag == b1 + z
    ensures bag + w2 == b + w
  {
    forall o ensures (bag + w2)[o] == (b + w)[o] {
      assert (b1 + it)[o] == b[o];
      assert (w2 + z)[o] == (w + it)[o];
      assert bag[o] == (b1 + z)[o];
    }
  }

  /** `usePotion()`: drops the first potion in the bag. */
  function UsePotion(inv: Inventory): (r: Outcome)
    ensures r.ok <==> exists i :: 0 <= i < |inv.bag| && inv.bag[i].slot == Potion
    ensures !r.ok ==> r.inv == inv
    ensures r.ok ==> forall i :: FirstPotion(inv.bag, i) ==> r.inv.bag == RemoveAt(inv.bag, i)
    ensures r.inv.equipment == inv.equipment && r.inv.gold == inv.gold
    ensures r.ok ==> forall i :: FirstPotion(inv.bag, i) ==> Owned(r.inv) + multiset{inv.bag[i]} == Owned(inv)
  {
    var idx := FindIndex(inv.bag, (it: Item) => it.slot == Potion);
    if idx < 0 then
      Outcome(false, inv)
    else
      assert FirstPotion(inv.bag, idx);
      var bag := RemoveAt(inv.bag, idx);
      Outcome(true, Inventory(bag, inv.equipment, inv.gold))
  }

  /** `addGold(amount)`: adds `max(0, floor(amount))`. */
  function AddGold(inv: Inventory, amount: real): (r: Inventory)
    ensures r.bag == inv.bag && r.equipment == inv.equipment
    ensures r.gold >= inv.gold
    ensures amount < 0.0 ==> r.gold == inv.gold
    ensures amount >= 0.0 ==> (r.gold - inv.gold) as real <= amount < (r.gold - inv.gold + 1) as real
  {
    Inventory(inv.bag, inv.equipment, inv.gold + MaxInt(0, amount.Floor))
  }
}
