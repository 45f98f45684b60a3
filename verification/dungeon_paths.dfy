/** Connectivity of a generated dungeon: the L corridors of src/dungeon.ts
    chain every room's centre to the next one's, so every two room centres
    are joined by a walk of floor cells, each step moving one tile up, down,
    left or right. */
module DungeonPaths {
  import opened Base
  import opened Dungeon

  datatype Cell = Cell(x: int, y: int)

  /** The centre tile `(cx, cy)` of a room. */
  function Centre(r: Room): Cell
  {
    Cell(r.cx, r.cy)
  }

  /** p and q share a side. */
  predicate Adjacent(p: Cell, q: Cell)
  {
    || (p.x == q.x && (p.y - q.y == 1 || q.y - p.y == 1))
    || (p.y == q.y && (p.x - q.x == 1 || q.x - p.x == 1))
  }

  /** `path` walks over floor cells of g from `from` to `to`, one side-step
      at a time. */
  predicate IsPath(g: Grid, path: seq<Cell>, from: Cell, to: Cell)
  {
    && |path| > 0 && path[0] == from && path[|path| - 1] == to
    && (forall k :: 0 <= k < |path| ==> IsFloor(g, path[k].x, path[k].y))
    && (forall k :: 0 <= k < |path| - 1 ==> Adjacent(path[k], path[k + 1]))
  }

  // ---------------------------------------------------------------------
  // Straight walks

  /** The cells of row y from column x1 to column x2, in walking order. */
  function HWalk(x1: int, x2: int, y: int): (p: seq<Cell>)
    ensures |p| > 0 && p[0] == Cell(x1, y) && p[|p| - 1] == Cell(x2, y)
    ensures forall k :: 0 <= k < |p| ==> p[k].y == y && MinInt(x1, x2) <= p[k].x <= MaxInt(x1, x2)
    ensures forall k :: 0 <= k < |p| - 1 ==> Adjacent(p[k], p[k + 1])
    decreases if x1 <= x2 then x2 - x1 else x1 - x2
  {
    if x1 == x2 then [Cell(x1, y)]
    else
      var rest := HWalk(if x1 < x2 then x1 + 1 else x1 - 1, x2, y);
      assert Adjacent(Cell(x1, y), rest[0]);
      [Cell(x1, y)] + rest
  }

  /** The cells of column x from row y1 to row y2, in walking order. */
  function VWalk(y1: int, y2: int, x: int): (p: seq<Cell>)
    ensures |p| > 0 && p[0] == Cell(x, y1) && p[|p| - 1] == Cell(x, y2)
    ensures forall k :: 0 <= k < |p| ==> p[k].x == x && MinInt(y1, y2) <= p[k].y <= MaxInt(y1, y2)
    ensures forall k :: 0 <= k < |p| - 1 ==> Adjacent(p[k], p[k + 1])
    decreases if y1 <= y2 then y2 - y1 else y1 - y2
  {
    if y1 == y2 then [Cell(x, y1)]
    else
      var rest := VWalk(if y1 < y2 then y1 + 1 else y1 - 1, y2, x);
      assert Adjacent(Cell(x, y1), rest[0]);
      [Cell(x, y1)] + rest
  }

  /** A floor row segment can be walked end to end. */
  lemma HWalkOnFloor(g: Grid, x1: int, x2: int, y: int)
    requires HLine(g, x1, x2, y)
    ensures IsPath(g, HWalk(x1, x2, y), Cell(x1, y), Cell(x2, y))
  {
    var p := HWalk(x1, x2, y);
    forall k | 0 <= k < |p|
      ensures IsFloor(g, p[k].x, p[k].y)
    {
      assert MinInt(x1, x2) <= p[k].x <= MaxInt(x1, x2);
    }
  }

  /** A floor column segment can be walked end to end. */
  lemma VWalkOnFloor(g: Grid, y1: int, y2: int, x: int)
    requires VLine(g, y1, y2, x)
    ensures IsPath(g, VWalk(y1, y2, x), Cell(x, y1), Cell(x, y2))
  {
    var p := VWalk(y1, y2, x);
    forall k | 0 <= k < |p|
      ensures IsFloor(g, p[k].x, p[k].y)
    {
      assert MinInt(y1, y2) <= p[k].y <= MaxInt(y1, y2);
    }
  }

  // ---------------------------------------------------------------------
  // Joining and reversing walks

  /** p followed by q, sharing q's first cell with p's last. */
  function Join(p: seq<Cell>, q: seq<Cell>): seq<Cell>
    requires |q| > 0
  {
    p + q[1..]
  }

  /** Two walks meeting at b make one walk from a to c. */
  lemma JoinPath(g: Grid, p: seq<Cell>, q: seq<Cell>, a: Cell, b: Cell, c: Cell)
    requires IsPath(g, p, a, b) && IsPath(g, q, b, c)
    ensures IsPath(g, Join(p, q), a, c)
  {
    var r := Join(p, q);
    assert |r| == |p| + |q| - 1;
    forall k | 0 <= k < |r|
      ensures IsFloor(g, r[k].x, r[k].y)
    {
      if k >= |p| {
        assert r[k] == q[k - |p| + 1];
      }
    }
    forall k | 0 <= k < |r| - 1
      ensures Adjacent(r[k], r[k + 1])
    {
      if k < |p| - 1 {
        assert r[k] == p[k] && r[k + 1] == p[k + 1];
      } else if k == |p| - 1 {
        assert r[k] == q[0] && r[k + 1] == q[1];
      } else {
        assert r[k] == q[k - |p| + 1] && r[k + 1] == q[k - |p| + 2];
      }
    }
  }

  function Reverse(p: seq<Cell>): (r: seq<Cell>)
    ensures |r| == |p| && forall k :: 0 <= k < |p| ==> r[k] == p[|p| - 1 - k]
  {
    seq(|p|, k requires 0 <= k < |p| => p[|p| - 1 - k])
  }

  /** Walks can be taken backwards. */
  lemma ReversePath(g: Grid, p: seq<Cell>, a: Cell, b: Cell)
    requires IsPath(g, p, a, b)
    ensures IsPath(g, Reverse(p), b, a)
  {
    var r := Reverse(p);
    forall k | 0 <= k < |r|
      ensures IsFloor(g, r[k].x, r[k].y)
    {
      assert r[k] == p[|p| - 1 - k];
    }
    forall k | 0 <= k < |r| - 1
      ensures Adjacent(r[k], r[k + 1])
    {
      assert Adjacent(p[|p| - 2 - k], p[|p| - 1 - k]);
    }
  }

  // ---------------------------------------------------------------------
  // Corridors and rooms

  /** The walk along the first tunnel of each leg of the corridor from a's
      centre to b's: along the row then the column when `hFirst`, along the
      column then the row otherwise. */
  function CorridorWalk(a: Room, b: Room, hFirst: bool): seq<Cell>
  {
    if hFirst then Join(HWalk(a.cx, b.cx, a.cy), VWalk(a.cy, b.cy, b.cx))
    else Join(VWalk(a.cy, b.cy, a.cx), HWalk(a.cx, b.cx, b.cy))
  }

  /** A carved corridor can be walked from centre to centre. */
  lemma CorridorConnects(g: Grid, a: Room, b: Room, hFirst: bool)
    requires Corridor(g, a, b, hFirst)
    ensures IsPath(g, CorridorWalk(a, b, hFirst), Centre(a), Centre(b))
  {
    if hFirst {
      HWalkOnFloor(g, a.cx, b.cx, a.cy);
      VWalkOnFloor(g, a.cy, b.cy, b.cx);
      JoinPath(g, HWalk(a.cx, b.cx, a.cy), VWalk(a.cy, b.cy, b.cx), Centre(a), Cell(b.cx, a.cy), Centre(b));
    } else {
      VWalkOnFloor(g, a.cy, b.cy, a.cx);
      HWalkOnFloor(g, a.cx, b.cx, b.cy);
      JoinPath(g, VWalk(a.cy, b.cy, a.cx), HWalk(a.cx, b.cx, b.cy), Centre(a), Cell(a.cx, b.cy), Centre(b));
    }
  }

  /** Each room after the first is joined to the one before it. */
  ghost predicate Chained(g: Grid, rooms: seq<Room>)
  {
    forall k :: 1 <= k < |rooms| ==>
      Corridor(g, rooms[k - 1], rooms[k], true) || Corridor(g, rooms[k - 1], rooms[k], false)
  }

  /** The bend used between rooms k-1 and k. */
  ghost function Bend(g: Grid, rooms: seq<Room>, k: int): bool
    requires Chained(g, rooms) && 1 <= k < |rooms|
  {
    Corridor(g, rooms[k - 1], rooms[k], true)
  }

  /** The walk from the first room's centre to room i's, through the
      centre of every room in between. */
  ghost function ChainWalk(g: Grid, rooms: seq<Room>, i: int): (p: seq<Cell>)
    requires Chained(g, rooms) && 0 <= i < |rooms|
    requires IsFloor(g, rooms[0].cx, rooms[0].cy)
    ensures IsPath(g, p, Centre(rooms[0]), Centre(rooms[i]))
  {
    if i == 0 then [Centre(rooms[0])]
    else
      var prior := ChainWalk(g, rooms, i - 1);
      var bend := Bend(g, rooms, i);
      CorridorConnects(g, rooms[i - 1], rooms[i], bend);
      var step := CorridorWalk(rooms[i - 1], rooms[i], bend);
      JoinPath(g, prior, step, Centre(rooms[0]), Centre(rooms[i - 1]), Centre(rooms[i]));
      Join(prior, step)
  }

  /** A well-shaped room's centre lies inside it. */
  lemma CentreInside(g: Grid, r: Room)
    requires WellShaped(r) && RoomFloor(g, r)
    ensures IsFloor(g, r.cx, r.cy)
  {
    assert r.x <= r.cx < r.x + r.w && r.y <= r.cy < r.y + r.h;
  }

  /** A floor walk from room i's centre to room j's: back along the chain
      to the first room, then forward to room j. */
  ghost function Route(g: Grid, rooms: seq<Room>, i: int, j: int): (p: seq<Cell>)
    requires Chained(g, rooms) && 0 <= i < |rooms| && 0 <= j < |rooms|
    requires IsFloor(g, rooms[0].cx, rooms[0].cy)
    ensures IsPath(g, p, Centre(rooms[i]), Centre(rooms[j]))
  {
    var toI := ChainWalk(g, rooms, i);
    var toJ := ChainWalk(g, rooms, j);
    ReversePath(g, toI, Centre(rooms[0]), Centre(rooms[i]));
    JoinPath(g, Reverse(toI), toJ, Centre(rooms[i]), Centre(rooms[0]), Centre(rooms[j]));
    Join(Reverse(toI), toJ)
  }

  /** In a dungeon generated on a grid of at least 20 x 20, every two room
      centres are joined by a walk over floor. */
  lemma CentresConnected(W: nat, H: nat, maxRooms: nat, draws: seq<real>, i: int, j: int)
    requires ValidDraws(draws) && 5 * maxRooms <= |draws|
    requires W >= 20 && H >= 20
    ensures var d := Generate(W, H, draws, maxRooms).value;
      0 <= i < |d.rooms| && 0 <= j < |d.rooms| ==>
      exists p :: IsPath(d.grid, p, Centre(d.rooms[i]), Centre(d.rooms[j]))
  {
    var d := Generate(W, H, draws, maxRooms).value;
    if 0 <= i < |d.rooms| && 0 <= j < |d.rooms| {
      assert Chained(d.grid, d.rooms);
      CentreInside(d.grid, d.rooms[0]);
      var p := Route(d.grid, d.rooms, i, j);
      assert IsPath(d.grid, p, Centre(d.rooms[i]), Centre(d.rooms[j]));
    }
  }
}
