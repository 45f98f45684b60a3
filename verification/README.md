# Dungeon game simulation core, in Dafny

This project is a functional model of the simulation rules of a small
top-down dungeon game written in TypeScript with Pixi.js. Everything that
draws, plays sound or reads devices is left out. What remains is:

- the procedural dungeon generator (`generateDungeon`, src/dungeon.ts);
- the bordered arena the game actually plays in (`World`, src/world.ts);
- the player's inventory (`InventorySystem`, src/inventory.ts);
- projectiles, melee and the combat update (src/combat.ts);
- the chasing enemy (src/enemy.ts);
- chests (src/loot.ts), breakable furniture and item pickups (src/props.ts);
- the simulation rules of the per-frame ticker (src/main.ts): movement
  intent, the order of the combat and enemy updates, and opening the
  nearest chest;
- the 16-bit PCM WAV writer of the sound-effect tool
  (`writeWavPCM16`, tools/generate_sfx.mjs).

Every object is an immutable datatype and every method of the source is a
pure function from the old state to the new one. The non-deterministic or
irrational inputs are parameters:

- `Math.random()` becomes a sequence of draws, each in [0, 1).
- `Math.hypot(dx, dy)` becomes a supplied length `len` with
  `len >= 0 && len * len == dx * dx + dy * dy` (`Base.IsHypot`).
- A parent's optional `resolveMovement` hook becomes an optional resolved
  position. The game's world has no such hook, so `None` is the shipped
  behaviour.
- The values of the constants module (`WORLD_WIDTH_TILES`,
  `WORLD_HEIGHT_TILES`, `TILE_SIZE`, `PIXEL_SCALE`) are parameters.

Removing an object from the scene (`destroy()`) is a `destroyed` flag.
Spawning a chest is a returned value. A chest's `tryOpen` receives and
returns the inventory it pays into.

Modules, one per source file: `Base` (shared vocabulary), `Dungeon` and
`DungeonPaths` (src/dungeon.ts), `World`, `Inventory`, `Loot`, `Props`,
`Enemies`, `Combat`, `Ticker` (src/main.ts) and `Wav` (tools/generate_sfx.mjs).

Where the source is not defined for an input, the model makes the outcome
explicit:

- A dungeon tunnel that would write outside the grid is `Failure(OutOfGrid)`,
  and so is a border pass on a grid with exactly one zero dimension. Neither
  can happen on a grid of at least 20 x 20. On smaller grids JavaScript
  throws in some of these cases and silently writes past the grid in others;
  "## Left out" lists which.
- A WAV whose RIFF size does not fit in 32 bits is `Failure(FieldOutOfRange)`,
  the RangeError of `writeUInt32LE`.

## Model

| member | source | states |
|---|---|---|
| Base.Trunc | tools/generate_sfx.mjs:30 | The integer part toward zero of a real: within 1 below it for non-negative input and within 1 above it for negative input. |
| Dungeon.Filled | src/dungeon.ts:7 | The starting grid has H rows of W columns and every cell is wall. |
| Dungeon.CarveRoomRow | src/dungeon.ts:14-17 | One row of `carveRoom`: exactly the interior cells of that row in the column range become floor; border cells and all other cells are untouched. |
| Dungeon.CarveRoomRows | src/dungeon.ts:13-18 | The rows of `carveRoom`: exactly the interior cells of the row and column ranges become floor. |
| Dungeon.CarveRoom | src/dungeon.ts:12-19 | `carveRoom` makes exactly the interior cells of the rectangle floor, never writes the border, and keeps the grid's shape. |
| Dungeon.HRun | src/dungeon.ts:22 | Cells of one row between two columns become floor; nothing else changes. |
| Dungeon.VRun | src/dungeon.ts:25 | Cells of one column between two rows become floor; nothing else changes. |
| Dungeon.CarveHTunnel | src/dungeon.ts:21-23 | Succeeds exactly when every write of the horizontal tunnel is in the grid, and then floors exactly the cells between min and max of the two columns on that row. |
| Dungeon.CarveVTunnel | src/dungeon.ts:24-26 | Succeeds exactly when every write of the vertical tunnel is in the grid, and then floors exactly the cells between min and max of the two rows in that column. |
| Dungeon.Connect | src/dungeon.ts:48-62 | The four tunnel calls of either branch succeed exactly when all their writes fit; they then lay a two-tile-wide L of floor between the two centres, bending as drawn, keep all earlier floor and keep the grid binary. |
| Dungeon.OverlapsAny | src/dungeon.ts:34-42 | The early-exit overlap scan reports true exactly when the candidate meets some accepted room under the padded test. |
| Dungeon.ScaledRange | src/dungeon.ts:29-32 | `floor(d * k)` of a draw in [0, 1) lies in 0 .. k-1 whenever k >= 1. |
| Dungeon.Candidate | src/dungeon.ts:29-32 | A candidate has width and height in 8..15 and centre `x + w div 2`, `y + h div 2`; on a grid of at least 20 x 20 it keeps two tiles of margin top and left and three bottom and right. |
| Dungeon.PlacedCorridorFits | src/dungeon.ts:51-61 | Between two well-shaped, placed rooms, every tunnel write, including the `+1` offsets, is in the grid. |
| Dungeon.SeparatedAppend | src/dungeon.ts:34-47 | A candidate that overlaps no accepted room keeps the accepted rooms pairwise separated. |
| Dungeon.CarveRoomSound | src/dungeon.ts:44 | Carving a room keeps the grid binary and earlier floor, and floors the room's interior. |
| Dungeon.AttemptSound | src/dungeon.ts:28-62 | One loop iteration keeps the invariant (shape, binary, rooms well shaped, carved and separated, consecutive rooms joined), uses four or five draws, adds at most one room, and cannot fail on a grid of at least 20 x 20. |
| Dungeon.AttemptPicks | src/dungeon.ts:34-51 | An iteration appends its candidate exactly when the candidate overlaps no accepted room, and keeps the rooms otherwise. It takes a fifth draw, for the corridor bend, exactly when it appends after another room. |
| Dungeon.Accepted | src/dungeon.ts:28-47 | The selection rule on its own, without the grid: each candidate is kept exactly when it overlaps no room kept before it. The kept rooms only grow, by at most one per attempt. |
| Dungeon.Run | src/dungeon.ts:28-63 | The whole room loop keeps the invariant, only appends rooms, adds at most one per iteration, and cannot fail on a grid of at least 20 x 20. Its rooms are exactly those the selection rule keeps, so carving and corridors never change which candidate is accepted. |
| Dungeon.WallRows | src/dungeon.ts:66-69 | The first loop of the border pass walls rows 0 and H-1 and leaves every other row as it was. |
| Dungeon.WallCols | src/dungeon.ts:70-73 | The second loop of the border pass walls columns 0 and W-1 and leaves every other column as it was. |
| Dungeon.WallBorder | src/dungeon.ts:65-74 | The border pass walls every border cell, keeps every interior cell and keeps the grid binary. It fails only when exactly one of W and H is 0. |
| Dungeon.CorridorKept | src/dungeon.ts:48-74 | A corridor between placed rooms lies in the interior, so it survives the border pass. |
| Dungeon.Generate | src/dungeon.ts:6-76 | The dungeon is an H x W grid of 0s and 1s with a walled border. `maxRooms` defaults to 12. The dungeon has at most `maxRooms` rooms, which are pairwise separated, sized 8..15 and carved. They are exactly the candidates the selection rule keeps, starting from the first draw, and when `maxRooms` is at least 1 the first candidate is always the first room. On a grid of at least 20 x 20 generation succeeds, every room is placed with its margins and entirely floor, and each room after the first is joined to the one before by an L corridor of floor. |
| DungeonPaths.HWalk | src/dungeon.ts:22 | A walk along one row from one column to the other: it starts and ends at the given cells, stays between them, and moves one tile per step. |
| DungeonPaths.VWalk | src/dungeon.ts:25 | A walk along one column from one row to the other: it starts and ends at the given cells, stays between them, and moves one tile per step. |
| DungeonPaths.JoinPath | src/dungeon.ts:48-62 | Two floor walks meeting at a cell join into one floor walk. |
| DungeonPaths.CorridorConnects | src/dungeon.ts:48-62 | A carved L corridor can be walked over floor from one room's centre to the other's, whichever way it bends. |
| DungeonPaths.ChainWalk | src/dungeon.ts:44-62 | If the first centre is floor, chained corridors give a floor walk from the first room's centre to the centre of any later room. |
| DungeonPaths.Route | src/dungeon.ts:44-62 | When corridors chain the rooms and the first centre is floor, every two room centres are joined by a walk over floor, going back along the chain and forward again. |
| DungeonPaths.CentresConnected | src/dungeon.ts:6-76 | In any dungeon generated on a grid of at least 20 x 20, every two room centres are joined by a walk over floor cells. |
| World.GenerateGrid | src/world.ts:18-29 | The arena is h rows of w columns; a cell is wall exactly when it lies on the outer ring and floor exactly when it does not. |
| World.NewWorld | src/world.ts:8-16 | The grid a new world holds, as returned by `getGrid`, is that arena. |
| World.ArenaIsWalledOpenFloor | src/world.ts:18-29 | The arena is binary, border-walled and open inside, and it equals the dungeon generator's border pass applied to an all-floor grid. |
| Inventory.Empty | src/inventory.ts:15-17 | A new inventory has an empty bag, no equipment and no gold. |
| Inventory.FindIndex | src/inventory.ts:24 | `findIndex` returns the first position satisfying the test, or -1 exactly when none does. |
| Inventory.RemoveAt | src/inventory.ts:33 | `splice(i, 1)` shifts the later items down by one and loses exactly `bag[i]`. |
| Inventory.InsertAt | src/inventory.ts:35 | `splice(i, 0, x)` puts x at position i, shifts the later items up by one and gains exactly x. |
| Inventory.RemoveInsert | src/inventory.ts:33-36 | Removing position i and inserting at the same position replaces the item in place. |
| Inventory.Add | src/inventory.ts:19-21 | `add` appends the item at the end of the bag; earlier items, equipment and gold stay; the player owns exactly one more copy of the item. |
| Inventory.Equip | src/inventory.ts:23-38 | `equip` fails and changes nothing when the id is absent, the item is a potion, or its slot already holds an item with that id; otherwise it succeeds. On success the first item with that id goes into its slot and nothing else in the equipment changes. The previous occupant takes its place in the bag, or the bag just loses it when the slot was empty. Gold is unchanged, and the multiset of items owned across bag and equipment is preserved. |
| Inventory.EquipConserves | src/inventory.ts:32-36 | The swap moves one item from bag to slot and the displaced one from slot to bag, so the items owned are the same. |
| Inventory.WornUpdate | src/inventory.ts:32 | Writing a slot trades what it held for the new item in the multiset of worn items. |
| Inventory.UsePotion | src/inventory.ts:40-45 | `usePotion` succeeds exactly when the bag holds a potion; it then removes the first potion only, and otherwise changes nothing; equipment and gold are unchanged. |
| Inventory.AddGold | src/inventory.ts:47-49 | Gold never decreases. A negative amount adds nothing; otherwise the amount added is the integer part of the amount. |
| Loot.NewChest | src/loot.ts:4-15 | A spawned chest is closed and stands where it was placed. |
| Loot.TryOpen | src/loot.ts:29-39 | `tryOpen` succeeds exactly when the chest was closed; afterwards the chest is open; gold grows by 100 on success and is unchanged otherwise; bag and equipment are untouched. |
| Loot.PayoutsAtMostOnce | src/loot.ts:29-32 | Over any run of `tryOpen` calls a chest pays 100 gold in total if it started closed and was tried, and nothing otherwise; once tried it stays open. |
| Props.NewBreakable | src/props.ts:29-34 | The kind defaults to a table. A new table has 6 hp, a new chair 3, and neither is destroyed. |
| Props.TakeDamage | src/props.ts:47-57 | hp drops by exactly the damage with no clamp. The breakable is destroyed exactly when hp is now 0 or below, or it already was. While hp stays positive only hp changes. |
| Props.HitsAccumulate | src/props.ts:47-57 | After any run of hits, hp is the starting hp minus the total damage, and the breakable is destroyed exactly when some prefix of the run brought hp to 0 or below. |
| Props.Collect | src/props.ts:68-72 | `collect` appends exactly the carried item to the bag, leaves equipment and gold, marks the pickup removed and reports true. |
| Enemies.NewEnemy | src/enemy.ts:6-27 | A new enemy has full health (20), eyes open with 1.5 s to the first blink, and no health bar showing. |
| Enemies.TakeDamage | src/enemy.ts:97-124 | Health falls by the amount but never below 0. The position moves by exactly the knockback, which defaults to none, and the health bar shows for 3 s. A chest is dropped exactly when a living enemy's health reaches 0; it is closed and placed at the post-knockback position, and the enemy is then destroyed. |
| Enemies.AtMostOneChest | src/enemy.ts:116-123 | However many hits land, whatever knockback each carries, an enemy drops at most one chest, none at all if already destroyed, and it is destroyed exactly when it has dropped one or started destroyed. |
| Enemies.ToggleBlink | src/enemy.ts:81 | `(blinkState + 1) % 2` with JavaScript's truncating remainder flips 0 and 1 and stays in {0, 1}. |
| Enemies.Update | src/enemy.ts:49-95 | A destroyed enemy is unchanged. Otherwise it moves as the chase rule says. The blink state toggles only when the blink timer runs out and stays in {0, 1}. The closed-eye time is 0.08 s and the open-eye time is drawn from [1.5, 3). The health-bar timer counts down while positive. Health is never changed. |
| Enemies.Chase | src/enemy.ts:52-66 | The enemy stays put unless its target is more than 1 and less than 220 pixels away. It then moves to the parent's resolved position if one is given. Without one it takes a step toward the target whose length is exactly 100 px/s times dt. |
| Enemies.Step | src/enemy.ts:57-58 | The step `p + (d / dist) * reach` is a displacement parallel to d whose ratio to d is `reach / dist`. When dist is the length of d, the step's length is exactly `reach`. |
| Enemies.HealthRatio | src/enemy.ts:130 | The health-bar ratio lies in [0, 1] and is health over 20 whenever health is within [0, 20]. |
| Combat.NewProjectile | src/combat.ts:10-18 | A projectile starts at the given point with lifetime 1.2 and damage 3. A zero direction gives zero velocity. Any other direction gives a velocity along it whose ratio to the direction is speed over the direction's length, so its magnitude is exactly the speed. |
| Combat.Advance | src/combat.ts:20-25 | `update(dt)` moves the projectile by velocity times dt and lowers lifetime by exactly dt; it reports expiry exactly when lifetime is 0 or below; velocity and damage stay. |
| Combat.AdvanceAdditive | src/combat.ts:20-25 | Two frames of a and b seconds leave a projectile where one frame of a + b seconds would. |
| Combat.TargetIndex | src/combat.ts:27-38 | The enemy `tryHit` stops at is the first living enemy within 10 pixels, and -1 exactly when there is none. |
| Combat.TryHit | src/combat.ts:27-38 | `tryHit` reports a hit exactly when some living enemy is within 10 pixels. Only the first such enemy takes 3 damage, with knockback of 0.05 times its offset, and every other enemy is unchanged. With no hit, nothing changes and no chest drops. |
| Combat.FirstInRangeUnique | src/combat.ts:27-38 | At most one enemy is the first in range, so a projectile damages at most one enemy. |
| Combat.KeepSnoc | src/combat.ts:56-64 | Keeping the survivors of a list extended by one element extends the survivors by that element exactly when it survives. |
| Combat.KeepMember | src/combat.ts:56-64 | An element is among the survivors exactly when it is at some position whose flag says keep. |
| Combat.AdvanceAll | src/combat.ts:57-59 | Each projectile is moved and aged by the frame, in place. |
| Combat.Resolve | src/combat.ts:56-64 | The projectile loop runs from last to first. Every projectile that expires is removed. The kept projectiles are exactly the moved projectiles not removed, in their original order, and all have positive lifetime. |
| Combat.ResolveMeaning | src/combat.ts:56-64 | Each projectile is single-use. It is removed exactly when it expires this frame or its `tryHit` lands on the enemies as the later projectiles (handled earlier by the backward loop) left them. The enemies and the dropped chests are those of handling the projectiles one at a time from last to first. |
| Combat.NothingInReach | src/combat.ts:27-38 | When no moved projectile is within 10 pixels of any enemy, a projectile is removed exactly when it expires, no enemy changes and no chest drops. |
| Combat.LoneEnemyDrops | src/combat.ts:56-64 | Against a single enemy the projectile loop drops exactly one closed chest, where the enemy ends up, if the enemy was alive and ends destroyed, and none otherwise. An enemy destroyed beforehand is never changed. |
| Combat.ResolveStep | src/combat.ts:57-63 | Handling the last projectile first splits the survivors into those of the earlier projectiles followed by the last one if it survives. |
| Combat.ExpiredHarmless | src/combat.ts:59 | Because the expiry test short-circuits before `tryHit`, projectiles that all expire this frame damage no enemy, drop no chest and are all removed. |
| Combat.AliveMembers | src/combat.ts:66 | The pruned enemy list contains exactly the listed enemies that are not destroyed, and is no longer than the list. |
| Combat.AliveAppend | src/combat.ts:66 | Pruning distributes over concatenation, so surviving enemies keep their relative order. |
| Combat.Update | src/combat.ts:56-67 | After `update`, no listed enemy is destroyed and neither list grows. The projectiles are exactly the moved ones that neither expired nor hit, in original order, all with positive lifetime. The enemies are the pruned result of handling the projectiles from last to first, and the chests are the ones those hits dropped. |
| Combat.KeepLength | src/combat.ts:62 | Removing projectiles never lengthens the list. |
| Combat.CastMagic | src/combat.ts:50-54 | `castMagic` appends exactly one projectile and changes nothing else. The new projectile starts at the caster with lifetime 1.2 and damage 3, and moves toward the target at exactly speed 280, or not at all if the target is the caster's own position. |
| Combat.MeleeOne | src/combat.ts:71-88 | A living enemy more than 0.001 and at most `radius` from the swing takes 2 damage. It is pushed directly away from the swing's origin by exactly 20 pixels, its push being its offset scaled by 20 over its distance. Its blink is untouched. It drops a closed chest at its pushed position exactly when it was alive and is now destroyed, which happens exactly when its health reaches 0. Any other enemy is untouched and drops nothing. |
| Combat.Melee | src/combat.ts:69-90 | The sweep keeps the enemy list's length and order, applies the single-enemy rule to each enemy independently, leaves unstruck enemies unchanged, and drops, in list order, one closed chest at the new position of each enemy that was alive and is now destroyed. |
| Combat.MeleeAttack | src/combat.ts:69-90 | `meleeAttack` leaves the projectiles and the list alone, applies the single-enemy rule to every listed enemy, and yields, in list order, one closed chest at the new position of each enemy it kills. |
| Ticker.ReadIntent | src/main.ts:89-94 | Each intent component is -1, 0 or 1. It is -1 exactly when only the negative key is held, and 1 exactly when only the positive key is held. |
| Ticker.OppositeKeysCancel | src/main.ts:89-94 | Holding both opposite keys, or neither, gives 0 on that axis. |
| Ticker.IntentLength | src/main.ts:95-96 | A non-zero intent has a positive length, so the normalisation never divides by 0. |
| Ticker.MovePlayer | src/main.ts:95-100 | A zero intent leaves the player in place. A non-zero intent moves the player along it by 180 px/s for `delta`, as a displacement whose ratio to the intent is the reach over the intent's length, so a diagonal move covers exactly 180 px/s too. |
| Ticker.Tick | src/main.ts:117-118 | The combat update runs first. The enemy's update then runs on the enemy as the projectiles left it, and is skipped when it is destroyed by then. The ticker's enemy and the combat list stay consistent. The chests the projectiles drop are added to the world's children: exactly one closed chest where the enemy ends up when the projectiles kill it this frame, and none otherwise. |
| Ticker.ResolveKeepsDestroyed | src/combat.ts:27-29 | Projectile hits never touch an enemy that is already destroyed. |
| Ticker.Nearest | src/main.ts:124-134 | The scan finds no candidate exactly when no child is a chest. Otherwise the candidate is a chest child at the smallest squared distance; every earlier chest is strictly farther, so ties keep the earliest child. |
| Ticker.OpenNearest | src/main.ts:123-139 | With no chest, or the nearest one at squared distance 1024 or more, nothing changes. Otherwise that chest alone gets `tryOpen`, with its effect on the chest and the gold. |
| Wav.LE16 | tools/generate_sfx.mjs:20-25 | The two bytes written by `writeUInt16LE` read back as the value. |
| Wav.LE32 | tools/generate_sfx.mjs:16-27 | The four bytes written by `writeUInt32LE` read back as the value. |
| Wav.I16LE | tools/generate_sfx.mjs:30 | The two's-complement bytes written by `writeInt16LE` read back as the signed value. |
| Wav.Ascii | tools/generate_sfx.mjs:15-26 | A four-letter tag is written as its character codes, one byte each. |
| Wav.Quantise | tools/generate_sfx.mjs:29-30 | A sample becomes an integer in [-32767, 32767]: full scale at or beyond ±1, and otherwise the sample times 32767 truncated toward zero. |
| Wav.EncodeSamples | tools/generate_sfx.mjs:28-31 | The data chunk has two bytes per sample, and reading back at position 2i as signed little-endian 16-bit gives the quantised sample i. |
| Wav.Header | tools/generate_sfx.mjs:14-27 | The header is 44 bytes long. |
| Wav.HeaderReadsBack | tools/generate_sfx.mjs:15-27 | Every header field reads back at its offset: 'RIFF', 36 + dataSize, 'WAVE', 'fmt ', 16, format 1, 1 channel, 44100 Hz, byte rate 88200, block align 2, 16 bits, 'data', dataSize. |
| Wav.EncodeWav | tools/generate_sfx.mjs:9-31 | The file succeeds exactly when the RIFF size fits in 32 bits. It is 44 + 2n bytes long and every header field reads back. Bytes 44 + 2i and 45 + 2i read as a signed 16-bit value give back quantised sample i. |

## Left out

- Rendering, the scene graph, sprites, the camera, the minimap, the DOM overlay, input devices and audio playback are presentation or device I/O. This also covers the walk phase, leg swing, body bob, eye visibility, the health-bar drawing beyond its ratio, damage flashes and debris with their `setTimeout` timers, and the smash sound.
- `Chest.init`, the asynchronous frame loading, is presentation. The `window.__inventory` fallback for a chest's inventory is an ambient global; the inventory is a parameter instead.
- The DSP of the sound tool (oscillators, noise, envelopes, mixing) and the file system calls are floating-point numerics and file I/O. `Buffer.alloc`'s own size limit is not modelled.
- `Math.hypot` is not computed. Each caller supplies the length and its defining equation, and a zero length with non-zero components cannot be supplied.
- Dungeon.Generate: states that each consecutive pair of rooms is joined by one of the two L bends, not which draw chose the bend. The bend's draw index depends on how many candidates were rejected before. `Connect` states the bend exactly for a given branch.
- Dungeon.WallBorder: gives `Failure(OutOfGrid)` when W is 0 and H is not, although JavaScript then returns H rows holding one wall each. The second loop writes `grid[y][0]`, which grows the empty row, and `grid[y][-1]`, which sets a non-index property. When H is 0 and W is not, JavaScript throws a TypeError on the missing row 0, as the model's failure says.
- Dungeon.CarveHTunnel: gives `Failure(OutOfGrid)` for every write outside the grid. JavaScript throws a TypeError only when the row is missing, which the failure matches. A negative column silently sets a non-index property, and a column of W or more silently grows the row. None of these happens on a grid of at least 20 x 20.
- Dungeon.CarveVTunnel: gives `Failure(OutOfGrid)` for every write outside the grid, with the same JavaScript behaviour as the horizontal tunnel: a missing row throws a TypeError, a negative column sets a non-index property, and a column of W or more grows the row. None of these happens on a grid of at least 20 x 20.
- Resolving movement against tiles is not modelled, because the game's source has none. The enemy's optional parent hook is an input, and the game's world (src/world.ts) does not provide one.
- Projectiles and melee never strike breakables in src/combat.ts, which only targets enemies, so no such interaction is modelled.
- `generateDungeon` is modelled although src/main.ts builds its arena with `World.generateGrid` and never calls it.
- Calls on an object after Pixi's `destroy()` (a hit on a destroyed enemy, a second `takeDamage` on a broken table) are modelled as plain field updates. The model does not follow what the display library does after teardown.
- JavaScript numbers are IEEE doubles; the model uses exact reals and unbounded integers. NaN and infinities are not modelled. The one overflow the source checks, the 32-bit RIFF size, is modelled explicitly.
- The ticker's other actions between lines 89 and 139 are presentation or UI: animator calls, casting and melee on key presses (the operations themselves are modelled), overlay toggling, and equipment visibility.
