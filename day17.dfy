/** Day 17: pyroclastic flow. Rocks of five shapes fall in turn into a
 *  chamber seven units wide, pushed sideways by a repeating jet pattern,
 *  until they cannot move down and freeze in place. */
module Day17 {
  import opened Common

  /** `Point`, with `isize` coordinates; y grows upwards. */
  datatype Point = Point(x: int, y: int)

  function Add(a: Point, b: Point): Point
  {
    Point(a.x + b.x, a.y + b.y)
  }

  datatype Shape = HBar | Plus | RL | VBar | Square

  /** The shape `Shape::next` moves on to. */
  function NextShape(s: Shape): (r: Shape)
    ensures r != s
    ensures r == HBar <==> s == Square
  {
    match s
    case HBar => Plus
    case Plus => RL
    case RL => VBar
    case VBar => Square
    case Square => HBar
  }

  /** The shapes form one cycle of length five. */
  lemma ShapesCycle(s: Shape)
    ensures NextShape(NextShape(NextShape(NextShape(NextShape(s))))) == s
    ensures s != NextShape(s) && s != NextShape(NextShape(s))
    ensures s != NextShape(NextShape(NextShape(s))) && s != NextShape(NextShape(NextShape(NextShape(s))))
  {
  }

  /** The local `shape` iterator of `main`. */
  class ShapeCycle {
    var current: Shape

    /** `Shape::default()` is the horizontal bar. */
    constructor()
      ensures current == HBar
    {
      current := HBar;
    }

    /** `Shape::next`: returns the current shape and moves on. */
    method Next() returns (prev: Shape)
      modifies this
      ensures prev == old(current) && current == NextShape(old(current))
    {
      prev := current;
      current := NextShape(current);
    }
  }

  /** `Shape::get_points`: the cells of a shape, from its lower-left corner. */
  function Points(s: Shape): (r: seq<Point>)
    ensures 4 <= |r| <= 5
    ensures forall i :: 0 <= i < |r| ==> 0 <= r[i].x <= 3 && 0 <= r[i].y <= 3
    ensures r[0].x == 0 && (r[0].y == 0 || r[3].y == 0)
  {
    match s
    case HBar => [Point(0, 0), Point(1, 0), Point(2, 0), Point(3, 0)]
    case Plus => [Point(0, 1), Point(1, 1), Point(2, 1), Point(1, 0), Point(1, 2)]
    case RL => [Point(0, 0), Point(1, 0), Point(2, 0), Point(2, 1), Point(2, 2)]
    case VBar => [Point(0, 0), Point(0, 1), Point(0, 2), Point(0, 3)]
    case Square => [Point(0, 0), Point(1, 0), Point(1, 1), Point(0, 1)]
  }

  datatype Cell = Air | Wall | Rock

  datatype WindDirection = Left | Right

  /** `Into<Point>` for a jet. */
  function Offset(d: WindDirection): (r: Point)
    ensures r.y == 0 && Abs(r.x) == 1
  {
    match d
    case Left => Point(-1, 0)
    case Right => Point(1, 0)
  }

  /** `From<char>`: any character but '<' and '>' panics. */
  function ParseWind(c: char): (r: Result<WindDirection>)
    ensures r.Ok? <==> c == '<' || c == '>'
    ensures r.Ok? ==> (r.value == Left <==> c == '<')
  {
    match c
    case '<' => Ok(Left)
    case '>' => Ok(Right)
    case _ => Err(Panic)
  }

  /** The whole input, character by character (a line break panics too). */
  function ParseWinds(s: string): (r: Result<seq<WindDirection>>)
    ensures r.Ok? ==> |r.value| == |s| && forall i :: 0 <= i < |s| ==> ParseWind(s[i]) == Ok(r.value[i])
    ensures r.Err? ==> exists i :: 0 <= i < |s| && ParseWind(s[i]).Err?
  {
    if s == [] then Ok([])
    else
      match ParseWind(s[0])
      case Err(f) => Err(f)
      case Ok(d) =>
        match ParseWinds(s[1..])
        case Err(f) =>
          assert exists i :: 0 <= i < |s[1..]| && ParseWind(s[1..][i]).Err?;
          var i :| 0 <= i < |s[1..]| && ParseWind(s[1..][i]).Err?;
          assert ParseWind(s[i + 1]).Err?;
          Err(f)
        case Ok(ds) => Ok([d] + ds)
  }

  /** `Wind`: the jet pattern and the index of the next jet. */
  class Wind {
    var directions: seq<WindDirection>
    var current: nat

    predicate Valid()
      reads this
    {
      current < |directions|
    }

    /** `Wind::new`. */
    constructor(directions: seq<WindDirection>)
      ensures this.directions == directions && current == 0
    {
      this.directions := directions;
      current := 0;
    }

    /** `Wind::next`: the current jet; the index then wraps around. */
    method Next() returns (dir: WindDirection)
      requires Valid()
      modifies this
      ensures Valid() && directions == old(directions)
      ensures dir == old(directions[current])
      ensures current == (old(current) + 1) % |directions|
      ensures current == Following(|directions|, old(current))
    {
      dir := directions[current];
      NextIndex(current, |directions|);
      current := (current + 1) % |directions|;
    }
  }

  /** The index after `c` in a pattern of length `len`. */
  function Following(len: nat, c: nat): nat
  {
    if c + 1 >= len then 0 else c + 1
  }

  /** The wrap-around of `Wind::next` is the step to the following index. */
  lemma NextIndex(c: nat, len: nat)
    requires c < len
    ensures (c + 1) % len == Following(len, c)
  {
    if c + 1 < len {
      assert (c + 1) / len == 0;
    } else {
      assert (c + 1) / len == 1;
    }
  }

  /** The jet index after `k` calls of `Wind::next` from index `c`. */
  function Advance(len: nat, c: nat, k: nat): nat
  {
    if k == 0 then c else Following(len, Advance(len, c, k - 1))
  }

  /** Calls compose: k1 + k2 calls are k1 calls followed by k2 calls. */
  lemma {:induction false} AdvanceSplit(len: nat, c: nat, k1: nat, k2: nat)
    ensures Advance(len, c, k1 + k2) == Advance(len, Advance(len, c, k1), k2)
    decreases k2
  {
    if k2 > 0 {
      AdvanceSplit(len, c, k1, k2 - 1);
    }
  }

  /** Below the end of the pattern the index just counts up. */
  lemma {:induction false} AdvanceCounts(len: nat, c: nat, k: nat)
    requires c + k < len
    ensures Advance(len, c, k) == c + k
    decreases k
  {
    if k > 0 {
      AdvanceCounts(len, c, k - 1);
    }
  }

  /** The pattern repeats every `len` calls, from any index. */
  lemma WindCycles(len: nat, c: nat, k: nat)
    requires 0 < len && c < len
    ensures Advance(len, c, len) == c
    ensures Advance(len, c, k + len) == Advance(len, c, k)
  {
    AdvanceCounts(len, c, len - c - 1);
    assert Advance(len, c, len - c) == 0;
    AdvanceSplit(len, c, len - c, c);
    AdvanceCounts(len, 0, c);
    assert Advance(len, c, len) == c;
    AdvanceSplit(len, c, len, k);
    AdvanceSplit(len, c, k, len);
  }

  /** `Cave::get_cell_at`: walls left of 0, from 7 on and below 0; absent
   *  cells are Air. */
  function CellAt(cells: map<Point, Cell>, pos: Point): (r: Cell)
    ensures pos.x < 0 || pos.x >= 7 || pos.y < 0 ==> r == Wall
    ensures 0 <= pos.x < 7 && 0 <= pos.y ==> r == (if pos in cells then cells[pos] else Air)
  {
    if pos.x < 0 then Wall
    else if pos.x >= 7 then Wall
    else if pos.y < 0 then Wall
    else if pos in cells then cells[pos] else Air
  }

  /** The `any` of `Rock::does_collide` over a list of offsets. */
  predicate Hits(cells: map<Point, Cell>, pts: seq<Point>, pos: Point)
  {
    pts != [] && (CellAt(cells, Add(pos, pts[0])) != Air || Hits(cells, pts[1..], pos))
  }

  lemma {:induction false} HitsMeaning(cells: map<Point, Cell>, pts: seq<Point>, pos: Point)
    ensures Hits(cells, pts, pos) <==> exists i :: 0 <= i < |pts| && CellAt(cells, Add(pos, pts[i])) != Air
    decreases |pts|
  {
    if pts != [] {
      HitsMeaning(cells, pts[1..], pos);
      if exists i :: 0 <= i < |pts| && CellAt(cells, Add(pos, pts[i])) != Air {
        var i :| 0 <= i < |pts| && CellAt(cells, Add(pos, pts[i])) != Air;
        if i > 0 {
          assert pts[1..][i - 1] == pts[i];
        }
      }
    }
  }

  /** `Rock::does_collide`: some cell of the rock is not Air. */
  predicate Collides(cells: map<Point, Cell>, shape: Shape, pos: Point)
  {
    Hits(cells, Points(shape), pos)
  }

  /** A rock that does not collide lies inside the chamber: every one of its
   *  cells is between the walls and above the floor. */
  lemma FreeInside(cells: map<Point, Cell>, shape: Shape, pos: Point)
    requires !Collides(cells, shape, pos)
    ensures 0 <= pos.x && pos.x + 3 < 7 + 3 && 0 <= pos.y
    ensures forall i :: 0 <= i < |Points(shape)| ==>
      0 <= pos.x + Points(shape)[i].x < 7 && 0 <= pos.y + Points(shape)[i].y
  {
    var pts := Points(shape);
    HitsMeaning(cells, pts, pos);
    assert CellAt(cells, Add(pos, pts[0])) == Air;
    assert CellAt(cells, Add(pos, pts[3])) == Air;
    forall i | 0 <= i < |pts|
      ensures 0 <= pos.x + pts[i].x < 7 && 0 <= pos.y + pts[i].y
    {
      assert CellAt(cells, Add(pos, pts[i])) == Air;
    }
  }

  /** `t` is what `Cave::get_top` returns: the largest y of a cell that is
   *  not Air, or -1 when there is none. */
  ghost predicate IsTop(cells: map<Point, Cell>, t: int)
  {
    (forall p :: p in cells && cells[p] != Air ==> p.y <= t)
    && ((exists p :: p in cells && cells[p] != Air && p.y == t)
        || (t == -1 && forall p :: p in cells ==> cells[p] == Air))
  }

  lemma TopUnique(cells: map<Point, Cell>, a: int, b: int)
    requires IsTop(cells, a) && IsTop(cells, b)
    ensures a == b
  {
  }

  /** Every finite set of cells has a highest one. */
  lemma {:induction false} HighestExists(s: set<Point>)
    requires s != {}
    ensures exists p :: p in s && forall q :: q in s ==> q.y <= p.y
    decreases |s|
  {
    var p :| p in s;
    if s != {p} {
      HighestExists(s - {p});
      var h :| h in s - {p} && forall q :: q in s - {p} ==> q.y <= h.y;
      if h.y < p.y {
        assert forall q :: q in s ==> q.y <= p.y;
      } else {
        assert forall q :: q in s ==> q.y <= h.y;
      }
    } else {
      assert forall q :: q in s ==> q.y <= p.y;
    }
  }

  lemma TopExists(cells: map<Point, Cell>)
    ensures exists t :: IsTop(cells, t)
  {
    var solid := set p | p in cells && cells[p] != Air;
    if solid == {} {
      forall p | p in cells
        ensures cells[p] == Air
      {
        assert p !in solid;
      }
      assert IsTop(cells, -1);
    } else {
      HighestExists(solid);
      var h :| h in solid && forall q :: q in solid ==> q.y <= h.y;
      assert IsTop(cells, h.y);
    }
  }

  /** The top, as a value for the specification. */
  ghost function TopOf(cells: map<Point, Cell>): (t: int)
    ensures IsTop(cells, t)
  {
    TopExists(cells);
    var t :| IsTop(cells, t); t
  }

  /** An empty cave has top -1. */
  lemma EmptyTop()
    ensures TopOf(map[]) == -1
  {
    assert IsTop(map[], -1);
    TopUnique(map[], -1, TopOf(map[]));
  }

  /** The cave once the first `i` cells of a rock at `pos` are Rock. */
  function PlaceFirst(cells: map<Point, Cell>, shape: Shape, pos: Point, i: nat): map<Point, Cell>
    requires i <= |Points(shape)|
  {
    if i == 0 then cells else PlaceFirst(cells, shape, pos, i - 1)[Add(pos, Points(shape)[i - 1]) := Rock]
  }

  /** The cave once a rock is frozen at `pos`. */
  function Place(cells: map<Point, Cell>, shape: Shape, pos: Point): map<Point, Cell>
  {
    PlaceFirst(cells, shape, pos, |Points(shape)|)
  }

  /** `p` is one of the first `i` cells of a rock at `pos`. */
  predicate CoveredBy(shape: Shape, pos: Point, p: Point, i: nat)
    requires i <= |Points(shape)|
  {
    exists j :: 0 <= j < i && p == Add(pos, Points(shape)[j])
  }

  /** Freezing a rock makes every one of its cells Rock and leaves every
   *  other cell as it was. */
  lemma {:induction false} PlaceMeaning(cells: map<Point, Cell>, shape: Shape, pos: Point, i: nat, p: Point)
    requires i <= |Points(shape)|
    ensures p in PlaceFirst(cells, shape, pos, i) <==> p in cells || CoveredBy(shape, pos, p, i)
    ensures p in PlaceFirst(cells, shape, pos, i) ==>
      PlaceFirst(cells, shape, pos, i)[p] == if CoveredBy(shape, pos, p, i) then Rock else cells[p]
    decreases i
  {
    if i > 0 {
      PlaceMeaning(cells, shape, pos, i - 1, p);
      if CoveredBy(shape, pos, p, i) && p != Add(pos, Points(shape)[i - 1]) {
        var j :| 0 <= j < i && p == Add(pos, Points(shape)[j]);
        assert CoveredBy(shape, pos, p, i - 1);
      }
    }
  }

  /** Making one cell Rock never lowers the top, and that cell is below the
   *  new top. */
  lemma RockRaisesTop(cells: map<Point, Cell>, p: Point, t1: int, t2: int)
    requires IsTop(cells, t1) && IsTop(cells[p := Rock], t2) && p.y >= -1
    ensures t1 <= t2 && p.y <= t2
  {
    assert cells[p := Rock][p] == Rock;
    if exists q :: q in cells && cells[q] != Air && q.y == t1 {
      var q :| q in cells && cells[q] != Air && q.y == t1;
      if q != p {
        assert cells[p := Rock][q] != Air;
      }
    }
  }

  /** `put_rock` never lowers `get_top`. */
  lemma {:induction false} PlaceRaisesTop(cells: map<Point, Cell>, shape: Shape, pos: Point, i: nat)
    requires i <= |Points(shape)| && pos.y >= 0
    ensures TopOf(cells) <= TopOf(PlaceFirst(cells, shape, pos, i))
    decreases i
  {
    if i > 0 {
      PlaceRaisesTop(cells, shape, pos, i - 1);
      var before := PlaceFirst(cells, shape, pos, i - 1);
      RockRaisesTop(before, Add(pos, Points(shape)[i - 1]), TopOf(before), TopOf(PlaceFirst(cells, shape, pos, i)));
    }
  }

  /** `Cave`: the cells that are not plain Air. */
  class Cave {
    var cells: map<Point, Cell>

    constructor()
      ensures cells == map[]
    {
      cells := map[];
    }

    /** `Cave::get_top`. */
    method GetTop() returns (top: int)
      ensures IsTop(cells, top)
    {
      var rest := cells.Keys;
      var found := false;
      top := -1;
      while rest != {}
        invariant rest <= cells.Keys
        invariant forall p :: p in cells && p !in rest && cells[p] != Air ==> p.y <= top
        invariant found ==> exists p :: p in cells && cells[p] != Air && p.y == top
        invariant !found ==> top == -1 && forall p :: p in cells && p !in rest ==> cells[p] == Air
        decreases |rest|
      {
        var p :| p in rest;
        if cells[p] != Air && (!found || p.y > top) {
          top := p.y;
          found := true;
        }
        rest := rest - {p};
      }
    }

    /** `Cave::put_rock`: every cell of the rock becomes Rock. */
    method PutRock(shape: Shape, pos: Point)
      modifies this
      ensures cells == Place(old(cells), shape, pos)
    {
      var pts := Points(shape);
      for i := 0 to |pts|
        invariant cells == PlaceFirst(old(cells), shape, pos, i)
      {
        cells := cells[Add(pos, pts[i]) := Rock];
      }
    }
  }

  /** Where a rock comes to rest, and the jet index afterwards: each round
   *  the next jet pushes it sideways unless that collides, then it falls one
   *  unit unless that collides, in which case it freezes. */
  function Settle(cells: map<Point, Cell>, dirs: seq<WindDirection>, w: nat, shape: Shape, pos: Point): (r: (Point, nat))
    requires w < |dirs| && !Collides(cells, shape, pos)
    ensures r.1 < |dirs| && !Collides(cells, shape, r.0)
    ensures Collides(cells, shape, Add(r.0, Point(0, -1)))
    ensures r.0.y <= pos.y
    decreases pos.y + 1
  {
    FreeInside(cells, shape, pos);
    var next := Following(|dirs|, w);
    var blown := Add(pos, Offset(dirs[w]));
    var pushed := if !Collides(cells, shape, blown) then blown else pos;
    var fallen := Add(pushed, Point(0, -1));
    if !Collides(cells, shape, fallen) then
      FreeInside(cells, shape, fallen);
      Settle(cells, dirs, next, shape, fallen)
    else (pushed, next)
  }

  /** One round of `Settle`: the jet pushes the rock if it can, then the rock
   *  falls one unit if it can and otherwise freezes there. */
  lemma SettleStep(cells: map<Point, Cell>, dirs: seq<WindDirection>, w: nat, shape: Shape, pos: Point)
    requires w < |dirs| && !Collides(cells, shape, pos)
    ensures var blown := Add(pos, Offset(dirs[w]));
      var pushed := if !Collides(cells, shape, blown) then blown else pos;
      var fallen := Add(pushed, Point(0, -1));
      var next := Following(|dirs|, w);
      && next < |dirs|
      && (!Collides(cells, shape, fallen) ==> fallen.y < pos.y + 1 && Settle(cells, dirs, w, shape, pos) == Settle(cells, dirs, next, shape, fallen))
      && (Collides(cells, shape, fallen) ==> Settle(cells, dirs, w, shape, pos) == (pushed, next))
  {
    FreeInside(cells, shape, pos);
  }

  /** Where the next rock appears: two from the left wall, three empty rows
   *  above the top. */
  function Spawn(top: int): Point
  {
    Point(2, top + 4)
  }

  /** In a cave whose solid cells all lie at y >= 0, a rock spawned above
   *  the top collides with nothing. */
  lemma SpawnIsFree(cells: map<Point, Cell>, shape: Shape)
    requires forall p :: p in cells ==> p.y >= 0
    ensures !Collides(cells, shape, Spawn(TopOf(cells)))
  {
    var pts := Points(shape);
    var t := TopOf(cells);
    forall i | 0 <= i < |pts|
      ensures CellAt(cells, Add(Spawn(t), pts[i])) == Air
    {
      var q := Add(Spawn(t), pts[i]);
      assert q.y > t;
    }
    HitsMeaning(cells, pts, Spawn(t));
  }

  /** The state of `main` between rocks. */
  datatype Tower = Tower(cells: map<Point, Cell>, wind: nat, shape: Shape)

  /** The state after `n` rocks have fallen. */
  ghost function Run(dirs: seq<WindDirection>, n: nat): (r: Tower)
    requires |dirs| > 0
    ensures r.wind < |dirs|
    ensures forall p :: p in r.cells ==> p.y >= 0 && 0 <= p.x < 7 && r.cells[p] == Rock
  {
    if n == 0 then Tower(map[], 0, HBar)
    else
      var t := Run(dirs, n - 1);
      SpawnIsFree(t.cells, t.shape);
      var (pos, w) := Settle(t.cells, dirs, t.wind, t.shape, Spawn(TopOf(t.cells)));
      var after := Place(t.cells, t.shape, pos);
      assert forall p :: p in after ==> p.y >= 0 && 0 <= p.x < 7 && after[p] == Rock by {
        forall p | p in after
          ensures p.y >= 0 && 0 <= p.x < 7 && after[p] == Rock
        {
          PlaceMeaning(t.cells, t.shape, pos, |Points(t.shape)|, p);
          HitsMeaning(t.cells, Points(t.shape), pos);
          if p !in t.cells {
            var i :| 0 <= i < |Points(t.shape)| && p == Add(pos, Points(t.shape)[i]);
            assert CellAt(t.cells, p) == Air;
          }
        }
      }
      Tower(after, w, NextShape(t.shape))
  }

  /** The fall loop of `main` for one rock. */
  method Fall(cave: Cave, wind: Wind, shape: Shape, start: Point) returns (pos: Point)
    requires wind.Valid() && !Collides(cave.cells, shape, start)
    modifies cave, wind
    ensures wind.Valid() && wind.directions == old(wind.directions)
    ensures (pos, wind.current) == Settle(old(cave.cells), wind.directions, old(wind.current), shape, start)
    ensures cave.cells == Place(old(cave.cells), shape, pos)
  {
    ghost var settled := Settle(cave.cells, wind.directions, wind.current, shape, start);
    var rock := start;
    while true
      invariant wind.Valid() && wind.directions == old(wind.directions) && cave.cells == old(cave.cells)
      invariant !Collides(cave.cells, shape, rock)
      invariant Settle(cave.cells, wind.directions, wind.current, shape, rock) == settled
      decreases rock.y + 1
    {
      SettleStep(cave.cells, wind.directions, wind.current, shape, rock);
      var windDirection := wind.Next();
      var blown := Add(rock, Offset(windDirection));
      if !Collides(cave.cells, shape, blown) {
        rock := blown;
      }
      var fallen := Add(rock, Point(0, -1));
      if !Collides(cave.cells, shape, fallen) {
        rock := fallen;
      } else {
        cave.PutRock(shape, rock);
        return rock;
      }
    }
  }

  /** One turn of `main`'s rock loop: the rock spawns above the top with
   *  the next shape and falls until it freezes. */
  method DropRock(cave: Cave, wind: Wind, shapes: ShapeCycle, ghost n: nat)
    requires wind.Valid() && |wind.directions| > 0
    requires Run(wind.directions, n) == Tower(cave.cells, wind.current, shapes.current)
    modifies cave, wind, shapes
    ensures wind.Valid() && wind.directions == old(wind.directions)
    ensures Run(wind.directions, n + 1) == Tower(cave.cells, wind.current, shapes.current)
  {
    var top := cave.GetTop();
    TopUnique(cave.cells, top, TopOf(cave.cells));
    var position := Spawn(top);
    var shape := shapes.Next();
    SpawnIsFree(cave.cells, shape);
    var pos := Fall(cave, wind, shape, position);
  }

  /** `main`: `rocks` rocks fall and the height of the tower is reported.
   *  An empty jet pattern panics at the first jet. */
  method Simulate(dirs: seq<WindDirection>, rocks: nat) returns (r: Result<int>)
    ensures r.Err? <==> dirs == [] && rocks > 0
    ensures r.Err? ==> r.failure == Panic
    ensures r.Ok? && dirs != [] ==> r.value == TopOf(Run(dirs, rocks).cells) + 1
    ensures r.Ok? && dirs == [] ==> r.value == 0
  {
    if dirs == [] && rocks > 0 {
      return Err(Panic);
    }
    var cave := new Cave();
    if dirs == [] {
      var top := cave.GetTop();
      EmptyTop();
      TopUnique(cave.cells, top, TopOf(cave.cells));
      return Ok(top + 1);
    }
    var wind := new Wind(dirs);
    var shapes := new ShapeCycle();
    for n := 0 to rocks
      invariant wind.directions == dirs && wind.Valid()
      invariant Run(dirs, n) == Tower(cave.cells, wind.current, shapes.current)
    {
      DropRock(cave, wind, shapes, n);
    }
    var top := cave.GetTop();
    TopUnique(cave.cells, top, TopOf(cave.cells));
    return Ok(top + 1);
  }
}
