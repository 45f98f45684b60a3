/** The arena the game actually plays in (src/world.ts): a grid of
    `WORLD_HEIGHT_TILES` rows by `WORLD_WIDTH_TILES` columns whose outer ring
    is wall and whose inside is floor. The two sizes come from the constants
    module and are parameters here; drawing is not modelled. */
module World {
  import opened Base
  import opened Dungeon

  /** Cell (x, y) of a w x h arena is wall exactly on the outer ring. */
  predicate IsBorderCell(w: int, h: int, x: int, y: int)
  {
    x == 0 || y == 0 || x == w - 1 || y == h - 1
  }

  /** g is the bordered arena of w columns and h rows. */
  predicate IsArena(g: Grid, w: int, h: int)
  {
    && IsGrid(g, w, h)
    && forall y, x :: 0 <= y < h && 0 <= x < w ==>
         (g[y][x] == WALL <==> IsBorderCell(w, h, x, y))
         && (g[y][x] == FLOOR <==> !IsBorderCell(w, h, x, y))
  }

  /** `generateGrid()`: start from an all-floor grid and visit every cell
      row by row, writing 1 on the border and 0 elsewhere. */
  method GenerateGrid(w: nat, h: nat) returns (g: Grid)
    ensures IsArena(g, w, h)
  {
    g := seq(h, _ => seq(w, _ => FLOOR));
    var y := 0;
    while y < h
      invariant 0 <= y <= h && IsGrid(g, w, h)
      invariant forall b, a :: 0 <= b < y && 0 <= a < w ==>
        g[b][a] == (if IsBorderCell(w, h, a, b) then WALL else FLOOR)
    {
      var x := 0;
      while x < w
        invariant 0 <= x <= w && IsGrid(g, w, h)
        invariant forall b, a :: 0 <= b < y && 0 <= a < w ==>
          g[b][a] == (if IsBorderCell(w, h, a, b) then WALL else FLOOR)
        invariant forall a :: 0 <= a < x ==>
          g[y][a] == (if IsBorderCell(w, h, a, y) then WALL else FLOOR)
      {
        var isBorder := x == 0 || y == 0 || x == w - 1 || y == h - 1;
        g := g[y := g[y][x := if isBorder then WALL else FLOOR]];
        x := x + 1;
      }
      y := y + 1;
    }
  }

  datatype World = World(grid: Grid)

  /** `new World()`: builds the arena once. */
  method NewWorld(w: nat, h: nat) returns (world: World)
    ensures IsArena(GetGrid(world), w, h)
  {
    var g := GenerateGrid(w, h);
    world := World(g);
  }

  /** `getGrid()`: the grid built by the constructor. */
  function GetGrid(world: World): Grid
  {
    world.grid
  }

  /** An open (all-floor) grid. */
  function Open(w: nat, h: nat): (g: Grid)
    ensures IsGrid(g, w, h)
  {
    seq(h, _ => seq(w, _ => FLOOR))
  }

  /** The arena is the dungeon generator's border pass applied to an open
      floor: every arena is binary and border-walled, and walling the border
      of an open floor yields exactly the arena. */
  lemma ArenaIsWalledOpenFloor(g: Grid, w: nat, h: nat)
    requires IsArena(g, w, h)
    ensures Binary(g) && BorderWalled(g, w, h)
    ensures forall y, x :: Interior(w, h, x, y) ==> IsFloor(g, x, y)
    ensures (w == 0 <==> h == 0) ==> WallBorder(Open(w, h), w, h) == Success(g)
  {
    forall y, x | OnBorder(w, h, x, y)
      ensures IsWall(g, x, y)
    {
      assert IsBorderCell(w, h, x, y);
    }
    forall y, x | Interior(w, h, x, y)
      ensures IsFloor(g, x, y)
    {
      assert !IsBorderCell(w, h, x, y);
    }
    if w == 0 <==> h == 0 {
      var r := WallBorder(Open(w, h), w, h);
      var g2 := r.value;
      forall y | 0 <= y < h
        ensures g2[y] == g[y]
      {
        forall x | 0 <= x < w
          ensures g2[y][x] == g[y][x]
        {
          if IsBorderCell(w, h, x, y) {
            assert OnBorder(w, h, x, y);
          } else {
            assert Interior(w, h, x, y);
            assert Open(w, h)[y][x] == FLOOR;
          }
        }
        assert g2[y] == g[y];
      }
      assert g2 == g;
    }
  }
}
