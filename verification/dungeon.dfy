/** The procedural dungeon generator of src/dungeon.ts (`generateDungeon`).

    A grid `grid[y][x]` starts fully walled; up to `maxRooms` candidate rooms
    are drawn by rejection sampling, carved, and each accepted room after the
    first is joined to the previous one by a two-tile-wide L-shaped corridor;
    finally the border is walled again. `Math.random()` is replaced by a
    sequence of draws in [0, 1), consumed in the source's order: four per
    attempt (w, h, x, y) and one more for the corridor bend of every accepted
    room after the first. */
module Dungeon {
  import opened Base

  const FLOOR: int := 0
  const WALL: int := 1

  /** Rows of tiles, indexed `grid[y][x]`. */
  type Grid = seq<seq<int>>

  /** A carved room: origin, size and integer centre. */
  datatype Room = Room(x: int, y: int, w: int, h: int, cx: int, cy: int)

  datatype Dungeon = Dungeon(grid: Grid, rooms: seq<Room>)

  /** A write the source would make outside the grid: JavaScript either
      throws (missing row) or grows the row array (column past its end). */
  datatype GenError = OutOfGrid

  // ---------------------------------------------------------------------
  // Grid vocabulary

  /** `g` has `H` rows of `W` columns. */
  predicate IsGrid(g: Grid, W: int, H: int)
  {
    |g| == H && forall j :: 0 <= j < |g| ==> |g[j]| == W
  }

  /** Every cell is floor or wall. */
  predicate Binary(g: Grid)
  {
    forall j, i :: 0 <= j < |g| && 0 <= i < |g[j]| ==> g[j][i] == FLOOR || g[j][i] == WALL
  }

  predicate IsFloor(g: Grid, x: int, y: int)
  {
    0 <= y < |g| && 0 <= x < |g[y]| && g[y][x] == FLOOR
  }

  predicate IsWall(g: Grid, x: int, y: int)
  {
    0 <= y < |g| && 0 <= x < |g[y]| && g[y][x] == WALL
  }

  /** Strictly inside the border of a W x H grid. */
  predicate Interior(W: int, H: int, x: int, y: int)
  {
    0 < x < W - 1 && 0 < y < H - 1
  }

  /** A cell of the outermost ring of a W x H grid. */
  predicate OnBorder(W: int, H: int, x: int, y: int)
  {
    0 <= x < W && 0 <= y < H && (x == 0 || y == 0 || x == W - 1 || y == H - 1)
  }

  /** Every border cell is a wall. */
  ghost predicate BorderWalled(g: Grid, W: int, H: int)
  {
    forall y, x :: OnBorder(W, H, x, y) ==> IsWall(g, x, y)
  }

  /** `g2` has the shape of `g1` and every floor cell of `g1` is still floor. */
  ghost predicate Grows(g1: Grid, g2: Grid)
  {
    && |g2| == |g1|
    && (forall j :: 0 <= j < |g1| ==> |g2[j]| == |g1[j]|)
    && (forall y, x :: IsFloor(g1, x, y) ==> IsFloor(g2, x, y))
  }

  lemma GrowsTransitive(g1: Grid, g2: Grid, g3: Grid)
    requires Grows(g1, g2) && Grows(g2, g3)
    ensures Grows(g1, g3)
  {
  }

  /** The fully walled starting grid. */
  function Filled(W: nat, H: nat): (g: Grid)
    ensures IsGrid(g, W, H) && Binary(g)
    ensures forall y, x :: 0 <= y < H && 0 <= x < W ==> IsWall(g, x, y)
  {
    seq(H, _ => seq(W, _ => WALL))
  }

  /** `grid[y][x] = 0`. */
  function SetFloor(g: Grid, x: int, y: int): (r: Grid)
    requires 0 <= y < |g| && 0 <= x < |g[y]|
  {
    g[y := g[y][x := FLOOR]]
  }

  // ---------------------------------------------------------------------
  // carveRoom

  /** The inner loop of `carveRoom`: columns i .. xEnd-1 of row j, skipping
      cells on or outside the border. */
  function CarveRoomRow(g: Grid, W: int, H: int, j: int, i: int, xEnd: int): (r: Grid)
    requires IsGrid(g, W, H)
    decreases xEnd - i
    ensures IsGrid(r, W, H)
    ensures forall b, a :: 0 <= b < H && 0 <= a < W ==>
      r[b][a] == (if b == j && i <= a < xEnd && Interior(W, H, a, b) then FLOOR else g[b][a])
  {
    if i >= xEnd then g
    else
      var g' := if Interior(W, H, i, j) then SetFloor(g, i, j) else g;
      CarveRoomRow(g', W, H, j, i + 1, xEnd)
  }

  /** The outer loop of `carveRoom`: rows j .. yEnd-1. */
  function CarveRoomRows(g: Grid, W: int, H: int, x: int, w: int, j: int, yEnd: int): (r: Grid)
    requires IsGrid(g, W, H)
    decreases yEnd - j
    ensures IsGrid(r, W, H)
    ensures forall b, a :: 0 <= b < H && 0 <= a < W ==>
      r[b][a] == (if j <= b < yEnd && x <= a < x + w && Interior(W, H, a, b) then FLOOR else g[b][a])
  {
    if j >= yEnd then g
    else CarveRoomRows(CarveRoomRow(g, W, H, j, x, x + w), W, H, x, w, j + 1, yEnd)
  }

  /** `carveRoom(x, y, w, h)`: every interior cell of the rectangle becomes
      floor and nothing else changes; the border is never written. */
  function CarveRoom(g: Grid, W: int, H: int, x: int, y: int, w: int, h: int): (r: Grid)
    requires IsGrid(g, W, H)
    ensures IsGrid(r, W, H)
    ensures forall b, a :: 0 <= b < H && 0 <= a < W ==>
      r[b][a] == (if y <= b < y + h && x <= a < x + w && Interior(W, H, a, b) then FLOOR else g[b][a])
  {
    CarveRoomRows(g, W, H, x, w, y, y + h)
  }

  // ---------------------------------------------------------------------
  // carveHTunnel / carveVTunnel

  /** Cells (a, y) for a = x .. xEnd become floor. */
  function HRun(g: Grid, W: int, H: int, x: int, xEnd: int, y: int): (r: Grid)
    requires IsGrid(g, W, H) && 0 <= y < H && 0 <= x && xEnd < W
    decreases xEnd - x
    ensures IsGrid(r, W, H)
    ensures forall b, a :: 0 <= b < H && 0 <= a < W ==>
      r[b][a] == (if b == y && x <= a <= xEnd then FLOOR else g[b][a])
  {
    if x > xEnd then g else HRun(SetFloor(g, x, y), W, H, x + 1, xEnd, y)
  }

  /** Cells (x, b) for b = y .. yEnd become floor. */
  function VRun(g: Grid, W: int, H: int, y: int, yEnd: int, x: int): (r: Grid)
    requires IsGrid(g, W, H) && 0 <= x < W && 0 <= y && yEnd < H
    decreases yEnd - y
    ensures IsGrid(r, W, H)
    ensures forall b, a :: 0 <= b < H && 0 <= a < W ==>
      r[b][a] == (if a == x && y <= b <= yEnd then FLOOR else g[b][a])
  {
    if y > yEnd then g else VRun(SetFloor(g, x, y), W, H, y + 1, yEnd, x)
  }

  /** The source writes row `y` from column min(x1,x2) to max(x1,x2). */
  predicate HFits(W: int, H: int, x1: int, x2: int, y: int)
  {
    0 <= y < H && 0 <= MinInt(x1, x2) && MaxInt(x1, x2) < W
  }

  predicate VFits(W: int, H: int, y1: int, y2: int, x: int)
  {
    0 <= x < W && 0 <= MinInt(y1, y2) && MaxInt(y1, y2) < H
  }

  /** `carveHTunnel(x1, x2, y)`. */
  function CarveHTunnel(g: Grid, W: int, H: int, x1: int, x2: int, y: int): (r: Result<Grid, GenError>)
    requires IsGrid(g, W, H)
    ensures r.Success? <==> HFits(W, H, x1, x2, y)
    ensures r.Success? ==> IsGrid(r.value, W, H)
    ensures r.Success? ==> forall b, a :: 0 <= b < H && 0 <= a < W ==>
      r.value[b][a] == (if b == y && MinInt(x1, x2) <= a <= MaxInt(x1, x2) then FLOOR else g[b][a])
  {
    if HFits(W, H, x1, x2, y) then Success(HRun(g, W, H, MinInt(x1, x2), MaxInt(x1, x2), y))
    else Failure(OutOfGrid)
  }

  /** `carveVTunnel(y1, y2, x)`. */
  function CarveVTunnel(g: Grid, W: int, H: int, y1: int, y2: int, x: int): (r: Result<Grid, GenError>)
    requires IsGrid(g, W, H)
    ensures r.Success? <==> VFits(W, H, y1, y2, x)
    ensures r.Success? ==> IsGrid(r.value, W, H)
    ensures r.Success? ==> forall b, a :: 0 <= b < H && 0 <= a < W ==>
      r.value[b][a] == (if a == x && MinInt(y1, y2) <= b <= MaxInt(y1, y2) then FLOOR else g[b][a])
  {
    if VFits(W, H, y1, y2, x) then Success(VRun(g, W, H, MinInt(y1, y2), MaxInt(y1, y2), x))
    else Failure(OutOfGrid)
  }

  // ---------------------------------------------------------------------
  // Corridors

  /** Row y is floor from column x1 to column x2 (either order). */
  predicate HLine(g: Grid, x1: int, x2: int, y: int)
  {
    forall a :: MinInt(x1, x2) <= a <= MaxInt(x1, x2) ==> IsFloor(g, a, y)
  }

  /** Column x is floor from row y1 to row y2 (either order). */
  predicate VLine(g: Grid, y1: int, y2: int, x: int)
  {
    forall b :: MinInt(y1, y2) <= b <= MaxInt(y1, y2) ==> IsFloor(g, x, b)
  }

  /** Horizontal leg first: rows a.cy and a.cy+1 from a.cx to b.cx, then
      columns b.cx and b.cx+1 from a.cy to b.cy. */
  predicate HFirstCorridor(g: Grid, a: Room, b: Room)
  {
    && HLine(g, a.cx, b.cx, a.cy) && HLine(g, a.cx, b.cx, a.cy + 1)
    && VLine(g, a.cy, b.cy, b.cx) && VLine(g, a.cy, b.cy, b.cx + 1)
  }

  /** Vertical leg first: columns a.cx and a.cx+1 from a.cy to b.cy, then
      rows b.cy and b.cy+1 from a.cx to b.cx. */
  predicate VFirstCorridor(g: Grid, a: Room, b: Room)
  {
    && VLine(g, a.cy, b.cy, a.cx) && VLine(g, a.cy, b.cy, a.cx + 1)
    && HLine(g, a.cx, b.cx, b.cy) && HLine(g, a.cx, b.cx, b.cy + 1)
  }

  /** A two-tile-wide L corridor of floor joins the centres of a and b,
      bending one way if `hFirst` and the other way otherwise. */
  predicate Corridor(g: Grid, a: Room, b: Room, hFirst: bool)
  {
    if hFirst then HFirstCorridor(g, a, b) else VFirstCorridor(g, a, b)
  }

  /** Every write of the four tunnels joining a to b stays in the grid. */
  predicate CorridorFits(W: int, H: int, a: Room, b: Room, hFirst: bool)
  {
    if hFirst then
      && HFits(W, H, a.cx, b.cx, a.cy) && HFits(W, H, a.cx, b.cx, a.cy + 1)
      && VFits(W, H, a.cy, b.cy, b.cx) && VFits(W, H, a.cy, b.cy, b.cx + 1)
    else
      && VFits(W, H, a.cy, b.cy, a.cx) && VFits(W, H, a.cy, b.cy, a.cx + 1)
      && HFits(W, H, a.cx, b.cx, b.cy) && HFits(W, H, a.cx, b.cx, b.cy + 1)
  }

  /** The four tunnel calls of the source, in the source's order, for the
      branch `rand() < 0.5` (hFirst) or its negation. */
  function Connect(g: Grid, W: int, H: int, a: Room, b: Room, hFirst: bool): (r: Result<Grid, GenError>)
    requires IsGrid(g, W, H)
    ensures r.Success? <==> CorridorFits(W, H, a, b, hFirst)
    ensures r.Success? ==> IsGrid(r.value, W, H) && Grows(g, r.value) && Corridor(r.value, a, b, hFirst)
    ensures r.Success? ==> Binary(g) ==> Binary(r.value)
  {
    if hFirst then
      match CarveHTunnel(g, W, H, a.cx, b.cx, a.cy)
      case Failure(e) => Failure(e)
      case Success(g1) =>
        match CarveHTunnel(g1, W, H, a.cx, b.cx, a.cy + 1)
        case Failure(e) => Failure(e)
        case Success(g2) =>
          match CarveVTunnel(g2, W, H, a.cy, b.cy, b.cx)
          case Failure(e) => Failure(e)
          case Success(g3) => CarveVTunnel(g3, W, H, a.cy, b.cy, b.cx + 1)
    else
      match CarveVTunnel(g, W, H, a.cy, b.cy, a.cx)
      case Failure(e) => Failure(e)
      case Success(g1) =>
        match CarveVTunnel(g1, W, H, a.cy, b.cy, a.cx + 1)
        case Failure(e) => Failure(e)
        case Success(g2) =>
          match CarveHTunnel(g2, W, H, a.cx, b.cx, b.cy)
          case Failure(e) => Failure(e)
          case Success(g3) => CarveHTunnel(g3, W, H, a.cx, b.cx, b.cy + 1)
  }

  // ---------------------------------------------------------------------
  // Rooms

  /** The padded overlap test of the source: the rectangles, each grown by
      one tile on the right and bottom, touch or intersect. */
  predicate Overlaps(c: Room, rm: Room)
  {
    && c.x <= rm.x + rm.w + 1 && c.x + c.w + 1 >= rm.x
    && c.y <= rm.y + rm.h + 1 && c.y + c.h + 1 >= rm.y
  }

  /** The `for (const rm of rooms)` loop with `break`: does the candidate
      overlap some accepted room? */
  function OverlapsAny(rooms: seq<Room>, c: Room): (r: bool)
    ensures r <==> exists k :: 0 <= k < |rooms| && Overlaps(c, rooms[k])
  {
    if |rooms| == 0 then false
    else if Overlaps(c, rooms[0]) then true
    else OverlapsAny(rooms[1..], c)
  }

  /** No two accepted rooms overlap under the padded test. */
  predicate Separated(rooms: seq<Room>)
  {
    forall i, j :: 0 <= i < j < |rooms| ==> !Overlaps(rooms[j], rooms[i])
  }

  /** Sizes drawn from 8..15 and the centre `floor(x + w/2)`. */
  predicate WellShaped(r: Room)
  {
    && 8 <= r.w <= 15 && 8 <= r.h <= 15
    && r.cx == r.x + r.w / 2 && r.cy == r.y + r.h / 2
  }

  /** The room keeps a margin of two tiles on the top/left and three on the
      bottom/right. */
  predicate Placed(W: int, H: int, r: Room)
  {
    2 <= r.x && r.x + r.w <= W - 3 && 2 <= r.y && r.y + r.h <= H - 3
  }

  /** Every interior cell of the room is floor. */
  predicate RoomCarved(g: Grid, W: int, H: int, r: Room)
  {
    forall b, a :: r.y <= b < r.y + r.h && r.x <= a < r.x + r.w && Interior(W, H, a, b) ==> IsFloor(g, a, b)
  }

  /** Every cell of the room is floor. */
  predicate RoomFloor(g: Grid, r: Room)
  {
    forall b, a :: r.y <= b < r.y + r.h && r.x <= a < r.x + r.w ==> IsFloor(g, a, b)
  }

  // ---------------------------------------------------------------------
  // Random draws

  /** Every draw is a value `Math.random()` can return. */
  predicate ValidDraws(draws: seq<real>)
  {
    forall k :: 0 <= k < |draws| ==> 0.0 <= draws[k] < 1.0
  }

  /** `Math.floor(rand() * k)`. */
  function Scaled(d: real, k: int): int
  {
    (d * k as real).Floor
  }

  /** For a positive range, a scaled draw lands in 0 .. k-1. */
  lemma ScaledRange(d: real, k: int)
    requires 0.0 <= d < 1.0
    ensures k >= 1 ==> 0 <= Scaled(d, k) < k
  {
    if k >= 1 {
      assert d * k as real < 1.0 * k as real;
      assert d * k as real >= 0.0 * k as real;
    }
  }

  /** The candidate room built from draws next .. next+3 (source lines 29-32
      and 45-46). */
  function Candidate(W: int, H: int, draws: seq<real>, next: nat): (c: Room)
    requires ValidDraws(draws) && next + 4 <= |draws|
    ensures WellShaped(c)
    ensures W >= 20 && H >= 20 ==> Placed(W, H, c)
  {
    ScaledRange(draws[next], 8);
    ScaledRange(draws[next + 1], 8);
    var w := 8 + Scaled(draws[next], 8);
    var h := 8 + Scaled(draws[next + 1], 8);
    ScaledRange(draws[next + 2], W - w - 4);
    ScaledRange(draws[next + 3], H - h - 4);
    var x := 2 + Scaled(draws[next + 2], W - w - 4);
    var y := 2 + Scaled(draws[next + 3], H - h - 4);
    Room(x, y, w, h, x + w / 2, y + h / 2)
  }

  /** Two well-shaped, placed rooms can always be joined inside the grid. */
  lemma PlacedCorridorFits(W: int, H: int, a: Room, b: Room, hFirst: bool)
    ensures WellShaped(a) && WellShaped(b) && Placed(W, H, a) && Placed(W, H, b) ==>
      CorridorFits(W, H, a, b, hFirst)
  {
  }

  // ---------------------------------------------------------------------
  // The generation loop

  /** The generator's working state: grid, accepted rooms, next draw. */
  datatype GenState = GenState(grid: Grid, rooms: seq<Room>, next: nat)

  /** What holds after every iteration of the room loop. */
  predicate Inv(W: int, H: int, s: GenState)
  {
    && IsGrid(s.grid, W, H) && Binary(s.grid)
    && (forall k :: 0 <= k < |s.rooms| ==> WellShaped(s.rooms[k]))
    && (forall k :: 0 <= k < |s.rooms| ==> RoomCarved(s.grid, W, H, s.rooms[k]))
    && Separated(s.rooms)
    && (forall k :: 1 <= k < |s.rooms| ==>
          Corridor(s.grid, s.rooms[k - 1], s.rooms[k], true) || Corridor(s.grid, s.rooms[k - 1], s.rooms[k], false))
    && (W >= 20 && H >= 20 ==> forall k :: 0 <= k < |s.rooms| ==> Placed(W, H, s.rooms[k]))
  }

  lemma RoomsGrow(g1: Grid, g2: Grid, W: int, H: int, rooms: seq<Room>)
    requires Grows(g1, g2)
    requires forall k :: 0 <= k < |rooms| ==> RoomCarved(g1, W, H, rooms[k])
    ensures forall k :: 0 <= k < |rooms| ==> RoomCarved(g2, W, H, rooms[k])
  {
  }

  lemma CorridorsGrow(g1: Grid, g2: Grid, rooms: seq<Room>)
    requires Grows(g1, g2)
    requires forall k :: 1 <= k < |rooms| ==>
      Corridor(g1, rooms[k - 1], rooms[k], true) || Corridor(g1, rooms[k - 1], rooms[k], false)
    ensures forall k :: 1 <= k < |rooms| ==>
      Corridor(g2, rooms[k - 1], rooms[k], true) || Corridor(g2, rooms[k - 1], rooms[k], false)
  {
    forall k | 1 <= k < |rooms|
      ensures Corridor(g2, rooms[k - 1], rooms[k], true) || Corridor(g2, rooms[k - 1], rooms[k], false)
    {
      var a, b := rooms[k - 1], rooms[k];
      if Corridor(g1, a, b, true) {
        assert HFirstCorridor(g2, a, b);
      } else {
        assert VFirstCorridor(g2, a, b);
      }
    }
  }

  /** Appending a candidate that overlaps no accepted room keeps the rooms
      pairwise separated. */
  lemma SeparatedAppend(rooms: seq<Room>, c: Room)
    requires Separated(rooms) && !OverlapsAny(rooms, c)
    ensures Separated(rooms + [c])
  {
    var rs := rooms + [c];
    forall i, j | 0 <= i < j < |rs|
      ensures !Overlaps(rs[j], rs[i])
    {
      if j == |rooms| {
        assert rs[i] == rooms[i];
      }
    }
  }

  /** Carving a room keeps the grid binary, only adds floor, and makes the
      room's interior cells floor. */
  lemma CarveRoomSound(W: int, H: int, g: Grid, c: Room)
    requires IsGrid(g, W, H) && Binary(g)
    ensures var g1 := CarveRoom(g, W, H, c.x, c.y, c.w, c.h);
      Binary(g1) && Grows(g, g1) && RoomCarved(g1, W, H, c)
  {
  }

  /** The state after accepting room c (and carving its corridor, if any)
      satisfies the loop invariant again. */
  lemma InvAppend(W: int, H: int, s: GenState, c: Room, g: Grid, next: nat)
    requires Inv(W, H, s)
    requires IsGrid(g, W, H) && Binary(g) && Grows(s.grid, g)
    requires WellShaped(c) && RoomCarved(g, W, H, c) && !OverlapsAny(s.rooms, c)
    requires |s.rooms| > 0 ==>
      Corridor(g, s.rooms[|s.rooms| - 1], c, true) || Corridor(g, s.rooms[|s.rooms| - 1], c, false)
    requires W >= 20 && H >= 20 ==> Placed(W, H, c)
    ensures Inv(W, H, GenState(g, s.rooms + [c], next))
  {
    var rooms := s.rooms + [c];
    var n := |s.rooms|;
    RoomsGrow(s.grid, g, W, H, s.rooms);
    CorridorsGrow(s.grid, g, s.rooms);
    SeparatedAppend(s.rooms, c);
    forall k | 0 <= k < |rooms|
      ensures WellShaped(rooms[k]) && RoomCarved(g, W, H, rooms[k])
      ensures W >= 20 && H >= 20 ==> Placed(W, H, rooms[k])
    {
      if k < n {
        assert rooms[k] == s.rooms[k];
      }
    }
    forall k | 1 <= k < |rooms|
      ensures Corridor(g, rooms[k - 1], rooms[k], true) || Corridor(g, rooms[k - 1], rooms[k], false)
    {
      assert rooms[k - 1] == s.rooms[k - 1];
      if k < n {
        assert rooms[k] == s.rooms[k];
      }
    }
  }

  /** One iteration of the room loop (source lines 29-62). */
  function Attempt(W: int, H: int, draws: seq<real>, s: GenState): (r: Result<GenState, GenError>)
    requires ValidDraws(draws) && s.next + 5 <= |draws| && IsGrid(s.grid, W, H)
  {
    var c := Candidate(W, H, draws, s.next);
    if OverlapsAny(s.rooms, c) then
      Success(GenState(s.grid, s.rooms, s.next + 4))
    else
      var g1 := CarveRoom(s.grid, W, H, c.x, c.y, c.w, c.h);
      var rooms := s.rooms + [c];
      if |rooms| > 1 then
        var prev := rooms[|rooms| - 2];
        var hFirst := draws[s.next + 4] < 0.5;
        match Connect(g1, W, H, prev, c, hFirst)
        case Failure(e) => Failure(e)
        case Success(g2) => Success(GenState(g2, rooms, s.next + 5))
      else
        Success(GenState(g1, rooms, s.next + 4))
  }

  /** An iteration keeps the invariant, consumes four or five draws, adds at
      most one room, and never fails on a grid of at least 20 x 20. */
  lemma AttemptSound(W: int, H: int, draws: seq<real>, s: GenState)
    requires ValidDraws(draws) && s.next + 5 <= |draws| && Inv(W, H, s)
    ensures var r := Attempt(W, H, draws, s);
      && (r.Success? ==> Inv(W, H, r.value))
      && (r.Success? ==> s.next + 4 <= r.value.next <= s.next + 5)
      && (r.Success? ==> s.rooms <= r.value.rooms && |r.value.rooms| <= |s.rooms| + 1)
      && (W >= 20 && H >= 20 ==> r.Success?)
  {
    var c := Candidate(W, H, draws, s.next);
    if !OverlapsAny(s.rooms, c) {
      var g1 := CarveRoom(s.grid, W, H, c.x, c.y, c.w, c.h);
      CarveRoomSound(W, H, s.grid, c);
      if |s.rooms| > 0 {
        var rooms := s.rooms + [c];
        var prev := rooms[|rooms| - 2];
        assert prev == s.rooms[|s.rooms| - 1];
        var hFirst := draws[s.next + 4] < 0.5;
        PlacedCorridorFits(W, H, prev, c, hFirst);
        var r2 := Connect(g1, W, H, prev, c, hFirst);
        if r2.Success? {
          var g2 := r2.value;
          GrowsTransitive(s.grid, g1, g2);
          assert RoomCarved(g2, W, H, c);
          InvAppend(W, H, s, c, g2, s.next + 5);
        }
      } else {
        InvAppend(W, H, s, c, g1, s.next + 4);
      }
    }
  }

  /** The draws one iteration consumes: four for the candidate, and one more
      for the corridor bend when the candidate is accepted after another
      room. */
  function BendDraws(rooms: seq<Room>, c: Room): nat
  {
    if !OverlapsAny(rooms, c) && |rooms| > 0 then 5 else 4
  }

  /** The selection rule of the room loop on its own, without the grid:
      over `remaining` attempts, each candidate is kept exactly when it
      overlaps no room kept before it. */
  function Accepted(W: int, H: int, draws: seq<real>, rooms: seq<Room>, next: nat, remaining: nat): (r: seq<Room>)
    requires ValidDraws(draws) && next + 5 * remaining <= |draws|
    decreases remaining
    ensures rooms <= r && |r| <= |rooms| + remaining
  {
    if remaining == 0 then rooms
    else
      var c := Candidate(W, H, draws, next);
      var kept := if OverlapsAny(rooms, c) then rooms else rooms + [c];
      Accepted(W, H, draws, kept, next + BendDraws(rooms, c), remaining - 1)
  }

  /** An iteration appends the candidate exactly when it overlaps no
      accepted room, and takes the fifth draw exactly when it appends after
      another room. */
  lemma AttemptPicks(W: int, H: int, draws: seq<real>, s: GenState)
    requires ValidDraws(draws) && s.next + 5 <= |draws| && IsGrid(s.grid, W, H)
    ensures var c := Candidate(W, H, draws, s.next);
      var r := Attempt(W, H, draws, s);
      && (r.Success? ==> r.value.rooms == if OverlapsAny(s.rooms, c) then s.rooms else s.rooms + [c])
      && (r.Success? ==> r.value.next == s.next + BendDraws(s.rooms, c))
  {
  }

  /** The room loop: `remaining` more attempts. */
  function Run(W: int, H: int, draws: seq<real>, s: GenState, remaining: nat): (r: Result<GenState, GenError>)
    requires ValidDraws(draws) && s.next + 5 * remaining <= |draws| && Inv(W, H, s)
    decreases remaining
    ensures r.Success? ==> Inv(W, H, r.value)
    ensures r.Success? ==> s.rooms <= r.value.rooms && |r.value.rooms| <= |s.rooms| + remaining
    ensures r.Success? ==> r.value.rooms == Accepted(W, H, draws, s.rooms, s.next, remaining)
    ensures W >= 20 && H >= 20 ==> r.Success?
  {
    if remaining == 0 then Success(s)
    else
      AttemptSound(W, H, draws, s);
      match Attempt(W, H, draws, s)
      case Failure(e) => Failure(e)
      case Success(s1) =>
        AcceptedStep(W, H, draws, s, remaining);
        Run(W, H, draws, s1, remaining - 1)
  }

  /** After a successful iteration, the selection rule continues from the
      rooms and draw position that iteration left. */
  lemma AcceptedStep(W: int, H: int, draws: seq<real>, s: GenState, remaining: nat)
    requires ValidDraws(draws) && s.next + 5 * remaining <= |draws| && IsGrid(s.grid, W, H)
    requires remaining > 0 && Attempt(W, H, draws, s).Success?
    ensures var s1 := Attempt(W, H, draws, s).value;
      Accepted(W, H, draws, s.rooms, s.next, remaining) == Accepted(W, H, draws, s1.rooms, s1.next, remaining - 1)
  {
    AttemptPicks(W, H, draws, s);
  }

  // ---------------------------------------------------------------------
  // The border pass

  /** `grid[0][x] = 1; grid[H-1][x] = 1` for columns x .. W-1. */
  function WallRows(g: Grid, W: int, H: int, x: int): (r: Grid)
    requires IsGrid(g, W, H) && H > 0 && 0 <= x
    decreases W - x
    ensures IsGrid(r, W, H)
    ensures forall b, a :: 0 <= b < H && 0 <= a < W ==>
      r[b][a] == (if (b == 0 || b == H - 1) && x <= a then WALL else g[b][a])
  {
    if x >= W then g
    else
      var g1 := g[0 := g[0][x := WALL]];
      var g2 := g1[H - 1 := g1[H - 1][x := WALL]];
      WallRows(g2, W, H, x + 1)
  }

  /** `grid[y][0] = 1; grid[y][W-1] = 1` for rows y .. H-1. */
  function WallCols(g: Grid, W: int, H: int, y: int): (r: Grid)
    requires IsGrid(g, W, H) && W > 0 && 0 <= y
    decreases H - y
    ensures IsGrid(r, W, H)
    ensures forall b, a :: 0 <= b < H && 0 <= a < W ==>
      r[b][a] == (if (a == 0 || a == W - 1) && y <= b then WALL else g[b][a])
  {
    if y >= H then g
    else
      var g1 := g[y := g[y][0 := WALL]];
      var g2 := g1[y := g1[y][W - 1 := WALL]];
      WallCols(g2, W, H, y + 1)
  }

  /** The final pass of `generateDungeon`: the outer ring becomes wall and the
      interior is untouched. With exactly one dimension zero the source
      writes outside the grid. */
  function WallBorder(g: Grid, W: nat, H: nat): (r: Result<Grid, GenError>)
    requires IsGrid(g, W, H)
    ensures r.Success? <==> (W == 0 <==> H == 0)
    ensures r.Success? ==> IsGrid(r.value, W, H) && BorderWalled(r.value, W, H)
    ensures r.Success? ==> forall b, a :: Interior(W, H, a, b) ==> r.value[b][a] == g[b][a]
    ensures r.Success? ==> Binary(g) ==> Binary(r.value)
  {
    if W == 0 && H == 0 then Success(g)
    else if W == 0 || H == 0 then Failure(OutOfGrid)
    else
      var r := WallCols(WallRows(g, W, H, 0), W, H, 0);
      assert forall y, x :: OnBorder(W, H, x, y) ==> r[y][x] == WALL;
      Success(r)
  }

  // ---------------------------------------------------------------------
  // generateDungeon

  /** Interior cells are unchanged from g1 to g2. */
  ghost predicate SameInterior(g1: Grid, g2: Grid, W: int, H: int)
    requires IsGrid(g1, W, H) && IsGrid(g2, W, H)
  {
    forall b, a :: Interior(W, H, a, b) ==> g2[b][a] == g1[b][a]
  }

  lemma HLineKept(g1: Grid, g2: Grid, W: int, H: int, x1: int, x2: int, y: int)
    requires IsGrid(g1, W, H) && IsGrid(g2, W, H) && SameInterior(g1, g2, W, H)
    requires 0 < MinInt(x1, x2) && MaxInt(x1, x2) < W - 1 && 0 < y < H - 1
    requires HLine(g1, x1, x2, y)
    ensures HLine(g2, x1, x2, y)
  {
    forall a | MinInt(x1, x2) <= a <= MaxInt(x1, x2)
      ensures IsFloor(g2, a, y)
    {
      assert IsFloor(g1, a, y);
      assert Interior(W, H, a, y);
    }
  }

  lemma VLineKept(g1: Grid, g2: Grid, W: int, H: int, y1: int, y2: int, x: int)
    requires IsGrid(g1, W, H) && IsGrid(g2, W, H) && SameInterior(g1, g2, W, H)
    requires 0 < MinInt(y1, y2) && MaxInt(y1, y2) < H - 1 && 0 < x < W - 1
    requires VLine(g1, y1, y2, x)
    ensures VLine(g2, y1, y2, x)
  {
    forall b | MinInt(y1, y2) <= b <= MaxInt(y1, y2)
      ensures IsFloor(g2, x, b)
    {
      assert IsFloor(g1, x, b);
      assert Interior(W, H, x, b);
    }
  }

  lemma CorridorKept(g1: Grid, g2: Grid, W: int, H: int, a: Room, b: Room, hFirst: bool)
    requires IsGrid(g1, W, H) && IsGrid(g2, W, H) && SameInterior(g1, g2, W, H)
    requires WellShaped(a) && WellShaped(b) && Placed(W, H, a) && Placed(W, H, b)
    requires Corridor(g1, a, b, hFirst)
    ensures Corridor(g2, a, b, hFirst)
  {
    if hFirst {
      HLineKept(g1, g2, W, H, a.cx, b.cx, a.cy);
      HLineKept(g1, g2, W, H, a.cx, b.cx, a.cy + 1);
      VLineKept(g1, g2, W, H, a.cy, b.cy, b.cx);
      VLineKept(g1, g2, W, H, a.cy, b.cy, b.cx + 1);
    } else {
      VLineKept(g1, g2, W, H, a.cy, b.cy, a.cx);
      VLineKept(g1, g2, W, H, a.cy, b.cy, a.cx + 1);
      HLineKept(g1, g2, W, H, a.cx, b.cx, b.cy);
      HLineKept(g1, g2, W, H, a.cx, b.cx, b.cy + 1);
    }
  }

  /** `generateDungeon(W, H, maxRooms)` with `Math.random()` replaced by
      `draws`. */
  function Generate(W: nat, H: nat, draws: seq<real>, maxRooms: nat := 12): (r: Result<Dungeon, GenError>)
    requires ValidDraws(draws) && 5 * maxRooms <= |draws|
    ensures r.Success? ==> IsGrid(r.value.grid, W, H) && Binary(r.value.grid)
    ensures r.Success? ==> BorderWalled(r.value.grid, W, H)
    ensures r.Success? ==> |r.value.rooms| <= maxRooms
    ensures r.Success? ==> Separated(r.value.rooms)
    ensures r.Success? ==> forall k :: 0 <= k < |r.value.rooms| ==>
      WellShaped(r.value.rooms[k]) && RoomCarved(r.value.grid, W, H, r.value.rooms[k])
    ensures r.Success? ==> r.value.rooms == Accepted(W, H, draws, [], 0, maxRooms)
    ensures r.Success? && maxRooms >= 1 ==>
      |r.value.rooms| >= 1 && r.value.rooms[0] == Candidate(W, H, draws, 0)
    ensures W >= 20 && H >= 20 ==> r.Success?
    ensures W >= 20 && H >= 20 ==> forall k :: 0 <= k < |r.value.rooms| ==>
      Placed(W, H, r.value.rooms[k]) && RoomFloor(r.value.grid, r.value.rooms[k])
    ensures W >= 20 && H >= 20 ==> forall k :: 1 <= k < |r.value.rooms| ==>
      Corridor(r.value.grid, r.value.rooms[k - 1], r.value.rooms[k], true) ||
      Corridor(r.value.grid, r.value.rooms[k - 1], r.value.rooms[k], false)
  {
    var s0 := GenState(Filled(W, H), [], 0);
    match Run(W, H, draws, s0, maxRooms)
    case Failure(e) => Failure(e)
    case Success(s) =>
      match WallBorder(s.grid, W, H)
      case Failure(e) => Failure(e)
      case Success(g) =>
        assert SameInterior(s.grid, g, W, H);
        FinalRooms(s.grid, g, W, H, s.rooms);
        Success(Dungeon(g, s.rooms))
  }

  /** Rooms and corridors carved before the border pass survive it. */
  lemma FinalRooms(g1: Grid, g2: Grid, W: int, H: int, rooms: seq<Room>)
    requires IsGrid(g1, W, H) && IsGrid(g2, W, H) && SameInterior(g1, g2, W, H)
    requires forall k :: 0 <= k < |rooms| ==> WellShaped(rooms[k]) && RoomCarved(g1, W, H, rooms[k])
    requires forall k :: 1 <= k < |rooms| ==>
      Corridor(g1, rooms[k - 1], rooms[k], true) || Corridor(g1, rooms[k - 1], rooms[k], false)
    requires W >= 20 && H >= 20 ==> forall k :: 0 <= k < |rooms| ==> Placed(W, H, rooms[k])
    ensures forall k :: 0 <= k < |rooms| ==> RoomCarved(g2, W, H, rooms[k])
    ensures W >= 20 && H >= 20 ==> forall k :: 0 <= k < |rooms| ==> RoomFloor(g2, rooms[k])
    ensures W >= 20 && H >= 20 ==> forall k :: 1 <= k < |rooms| ==>
      Corridor(g2, rooms[k - 1], rooms[k], true) || Corridor(g2, rooms[k - 1], rooms[k], false)
  {
    if W >= 20 && H >= 20 {
      forall k | 1 <= k < |rooms|
        ensures Corridor(g2, rooms[k - 1], rooms[k], true) || Corridor(g2, rooms[k - 1], rooms[k], false)
      {
        if Corridor(g1, rooms[k - 1], rooms[k], true) {
          CorridorKept(g1, g2, W, H, rooms[k - 1], rooms[k], true);
        } else {
          CorridorKept(g1, g2, W, H, rooms[k - 1], rooms[k], false);
        }
      }
    }
  }
}
