/** Day 24: blizzards that wrap around inside a walled valley, and a
 *  breadth-first frontier of the positions the expedition can occupy after
 *  each minute. Coordinates are relative to the inside of the walls: the
 *  first row below the top wall is y = 0, the first column after the left
 *  wall is x = 0. */
module Day24 {
  import opened Common

  datatype Direction = Up | Right | Down | Left

  datatype Point = Point(x: int, y: int)

  function Plus(a: Point, b: Point): (r: Point)
    ensures r.x - a.x == b.x && r.y - a.y == b.y
  {
    Point(a.x + b.x, a.y + b.y)
  }

  datatype Blizzard = Blizzard(position: Point, direction: Direction)

  predicate Inside(p: Point, width: int, height: int)
  {
    0 <= p.x < width && 0 <= p.y < height
  }

  predicate Horizontal(d: Direction) { d == Left || d == Right }

  /** One minute of one blizzard (the body of `move_wind`): one cell in its
   *  direction, reappearing on the opposite side when it leaves the valley. */
  function Step(b: Blizzard, width: int, height: int): (r: Blizzard)
    ensures r.direction == b.direction
    ensures Horizontal(b.direction) ==> r.position.y == b.position.y
    ensures !Horizontal(b.direction) ==> r.position.x == b.position.x
    ensures Inside(b.position, width, height) ==> Inside(r.position, width, height)
  {
    var p := b.position;
    match b.direction
    case Up =>
      var y := p.y - 1;
      Blizzard(Point(p.x, if y < 0 then height - 1 else y), Up)
    case Right =>
      var x := p.x + 1;
      Blizzard(Point(if x > width - 1 then 0 else x, p.y), Right)
    case Down =>
      var y := p.y + 1;
      Blizzard(Point(p.x, if y > height - 1 then 0 else y), Down)
    case Left =>
      var x := p.x - 1;
      Blizzard(Point(if x < 0 then width - 1 else x, p.y), Left)
  }

  /** Every blizzard moved by one minute. */
  function MoveAll(wind: seq<Blizzard>, width: int, height: int): (r: seq<Blizzard>)
    ensures |r| == |wind|
    ensures forall i :: 0 <= i < |r| ==> r[i].direction == wind[i].direction
    ensures forall i :: 0 <= i < |r| && Inside(wind[i].position, width, height) ==> Inside(r[i].position, width, height)
  {
    seq(|wind|, i requires 0 <= i < |wind| => Step(wind[i], width, height))
  }

  /** A blizzard after `k` minutes. */
  function Steps(b: Blizzard, width: int, height: int, k: nat): Blizzard
    decreases k
  {
    if k == 0 then b else Steps(Step(b, width, height), width, height, k - 1)
  }

  lemma {:induction false} StepsAdd(b: Blizzard, width: int, height: int, m: nat, n: nat)
    ensures Steps(b, width, height, m + n) == Steps(Steps(b, width, height, m), width, height, n)
    decreases m
  {
    if m > 0 {
      StepsAdd(Step(b, width, height), width, height, m - 1, n);
    }
  }

  /** Moving without reaching a wall: `k` cells in the blizzard's direction. */
  lemma {:induction false} RightRun(b: Blizzard, width: int, height: int, k: nat)
    requires b.direction == Right && 0 <= b.position.x && b.position.x + k < width
    ensures Steps(b, width, height, k) == Blizzard(Point(b.position.x + k, b.position.y), Right)
    decreases k
  {
    if k > 0 {
      RightRun(Step(b, width, height), width, height, k - 1);
    }
  }

  lemma {:induction false} LeftRun(b: Blizzard, width: int, height: int, k: nat)
    requires b.direction == Left && b.position.x < width && 0 <= b.position.x - k
    ensures Steps(b, width, height, k) == Blizzard(Point(b.position.x - k, b.position.y), Left)
    decreases k
  {
    if k > 0 {
      LeftRun(Step(b, width, height), width, height, k - 1);
    }
  }

  lemma {:induction false} DownRun(b: Blizzard, width: int, height: int, k: nat)
    requires b.direction == Down && 0 <= b.position.y && b.position.y + k < height
    ensures Steps(b, width, height, k) == Blizzard(Point(b.position.x, b.position.y + k), Down)
    decreases k
  {
    if k > 0 {
      DownRun(Step(b, width, height), width, height, k - 1);
    }
  }

  lemma {:induction false} UpRun(b: Blizzard, width: int, height: int, k: nat)
    requires b.direction == Up && b.position.y < height && 0 <= b.position.y - k
    ensures Steps(b, width, height, k) == Blizzard(Point(b.position.x, b.position.y - k), Up)
    decreases k
  {
    if k > 0 {
      UpRun(Step(b, width, height), width, height, k - 1);
    }
  }

  lemma RightPeriod(b: Blizzard, width: int, height: int)
    requires b.direction == Right && Inside(b.position, width, height)
    ensures Steps(b, width, height, width) == b
  {
    var p := b.position;
    var m := width - 1 - p.x;
    StepsAdd(b, width, height, m, p.x + 1);
    RightRun(b, width, height, m);
    var start := Blizzard(Point(0, p.y), Right);
    assert Step(Blizzard(Point(width - 1, p.y), Right), width, height) == start;
    RightRun(start, width, height, p.x);
  }

  lemma LeftPeriod(b: Blizzard, width: int, height: int)
    requires b.direction == Left && Inside(b.position, width, height)
    ensures Steps(b, width, height, width) == b
  {
    var p := b.position;
    StepsAdd(b, width, height, p.x, width - p.x);
    LeftRun(b, width, height, p.x);
    var last := Blizzard(Point(width - 1, p.y), Left);
    assert Step(Blizzard(Point(0, p.y), Left), width, height) == last;
    LeftRun(last, width, height, width - 1 - p.x);
  }

  lemma DownPeriod(b: Blizzard, width: int, height: int)
    requires b.direction == Down && Inside(b.position, width, height)
    ensures Steps(b, width, height, height) == b
  {
    var p := b.position;
    var m := height - 1 - p.y;
    StepsAdd(b, width, height, m, p.y + 1);
    DownRun(b, width, height, m);
    var start := Blizzard(Point(p.x, 0), Down);
    assert Step(Blizzard(Point(p.x, height - 1), Down), width, height) == start;
    DownRun(start, width, height, p.y);
  }

  lemma UpPeriod(b: Blizzard, width: int, height: int)
    requires b.direction == Up && Inside(b.position, width, height)
    ensures Steps(b, width, height, height) == b
  {
    var p := b.position;
    StepsAdd(b, width, height, p.y, height - p.y);
    UpRun(b, width, height, p.y);
    var last := Blizzard(Point(p.x, height - 1), Up);
    assert Step(Blizzard(Point(p.x, 0), Up), width, height) == last;
    UpRun(last, width, height, height - 1 - p.y);
  }

  /** A horizontal blizzard inside the valley is back where it started after
   *  `width` minutes, a vertical one after `height` minutes. */
  lemma Period(b: Blizzard, width: int, height: int)
    requires Inside(b.position, width, height)
    ensures Steps(b, width, height, if Horizontal(b.direction) then width else height) == b
  {
    match b.direction
    case Right => RightPeriod(b, width, height);
    case Left => LeftPeriod(b, width, height);
    case Down => DownPeriod(b, width, height);
    case Up => UpPeriod(b, width, height);
  }

  /** The cells the blizzards occupy (`wind_position`). */
  function Positions(wind: seq<Blizzard>): set<Point>
  {
    set i | 0 <= i < |wind| :: wind[i].position
  }

  /** The offsets tried from each position: stay, left, right, down, up. */
  function Offsets(): (r: seq<Point>)
    ensures |r| == 5
  {
    [Point(0, 0), Point(-1, 0), Point(1, 0), Point(0, 1), Point(0, -1)]
  }

  /** The exit, below the bottom-right cell. */
  function Goal(width: int, height: int): Point
  {
    Point(width - 1, height)
  }

  /** The test of a candidate, as written: blizzard-free with y bounded by
   *  both `width` and `height` and x bounded below only, or the exit. */
  predicate Keep(q: Point, winds: set<Point>, width: int, height: int)
  {
    (q !in winds && q.x >= 0 && q.y < width && q.y >= 0 && q.y < height) || q == Goal(width, height)
  }

  /** The candidates kept from position `p` among the first `j` offsets,
   *  in the order they are pushed. */
  function KeptFrom(p: Point, winds: set<Point>, width: int, height: int, j: nat): seq<Point>
    requires j <= 5
  {
    if j == 0 then []
    else
      var q := Plus(p, Offsets()[j - 1]);
      KeptFrom(p, winds, width, height, j - 1)
        + (if q !in winds && q.x >= 0 && q.y < width && q.y >= 0 && q.y < height then [q] else [])
        + (if q == Goal(width, height) then [q] else [])
  }

  /** Distance one or zero along the grid. */
  predicate Near(p: Point, q: Point)
  {
    Abs(q.x - p.x) + Abs(q.y - p.y) <= 1
  }

  /** The kept candidates of `p` are exactly the kept cells near `p`. */
  lemma {:induction false} KeptFromMeaning(p: Point, winds: set<Point>, width: int, height: int, j: nat)
    requires j <= 5
    ensures forall q :: q in KeptFrom(p, winds, width, height, j) <==>
      Keep(q, winds, width, height) && exists k :: 0 <= k < j && q == Plus(p, Offsets()[k])
  {
    if j > 0 {
      KeptFromMeaning(p, winds, width, height, j - 1);
    }
  }

  lemma OffsetsNear(p: Point, q: Point)
    ensures Near(p, q) <==> exists k :: 0 <= k < 5 && q == Plus(p, Offsets()[k])
  {
    if Near(p, q) {
      var d := Point(q.x - p.x, q.y - p.y);
      assert d in Offsets();
      var k :| 0 <= k < 5 && Offsets()[k] == d;
      assert q == Plus(p, Offsets()[k]);
    }
  }

  /** The next frontier: every kept candidate of every position. */
  function Expand(state: set<Point>, winds: set<Point>, width: int, height: int): set<Point>
  {
    set p, q | p in state && q in KeptFrom(p, winds, width, height, 5) :: q
  }

  /** A cell is in the next frontier exactly when it is kept and near some
   *  position of the current one. */
  lemma ExpandMeaning(state: set<Point>, winds: set<Point>, width: int, height: int, q: Point)
    ensures q in Expand(state, winds, width, height) <==>
      Keep(q, winds, width, height) && exists p :: p in state && Near(p, q)
  {
    if q in Expand(state, winds, width, height) {
      var p :| p in state && q in KeptFrom(p, winds, width, height, 5);
      KeptFromMeaning(p, winds, width, height, 5);
      OffsetsNear(p, q);
    }
    if Keep(q, winds, width, height) && exists p :: p in state && Near(p, q) {
      var p :| p in state && Near(p, q);
      OffsetsNear(p, q);
      KeptFromMeaning(p, winds, width, height, 5);
      assert q in KeptFrom(p, winds, width, height, 5);
    }
  }

  /** The exit is kept from any position next to it, blizzards or not. */
  lemma GoalKept(state: set<Point>, winds: set<Point>, width: int, height: int, p: Point)
    requires p in state && Near(p, Goal(width, height))
    ensures Goal(width, height) in Expand(state, winds, width, height)
  {
    ExpandMeaning(state, winds, width, height, Goal(width, height));
  }

  /** The frontier and the blizzards after `k` minutes. */
  function Frontier(start: set<Point>, wind: seq<Blizzard>, width: int, height: int, k: nat): (r: (set<Point>, seq<Blizzard>))
    ensures |r.1| == |wind|
    decreases k
  {
    if k == 0 then (start, wind)
    else
      var (state, prev) := Frontier(start, wind, width, height, k - 1);
      var next := MoveAll(prev, width, height);
      (Expand(state, Positions(next), width, height), next)
  }

  /** The blizzards after `k` minutes are each blizzard moved `k` times. */
  lemma {:induction false} FrontierWind(start: set<Point>, wind: seq<Blizzard>, width: int, height: int, k: nat)
    ensures |Frontier(start, wind, width, height, k).1| == |wind|
    ensures forall i :: 0 <= i < |wind| ==> Frontier(start, wind, width, height, k).1[i] == Steps(wind[i], width, height, k)
    decreases k
  {
    if k > 0 {
      FrontierWind(start, wind, width, height, k - 1);
      forall i | 0 <= i < |wind|
        ensures Frontier(start, wind, width, height, k).1[i] == Steps(wind[i], width, height, k)
      {
        StepsAdd(wind[i], width, height, k - 1, 1);
      }
    }
  }

  /** In the search, a blizzard that starts inside the valley is back in
   *  place after `width` minutes if horizontal, `height` if vertical. */
  lemma WindReturns(start: set<Point>, wind: seq<Blizzard>, width: int, height: int, i: nat)
    requires i < |wind| && Inside(wind[i].position, width, height)
    ensures var k := if Horizontal(wind[i].direction) then width else height;
      k >= 0 && Frontier(start, wind, width, height, k).1[i] == wind[i]
  {
    var k := if Horizontal(wind[i].direction) then width else height;
    FrontierWind(start, wind, width, height, k);
    Period(wind[i], width, height);
  }

  /** The exit is in the frontier after `k` minutes from the start (0, 0). */
  ghost predicate Reached(wind: seq<Blizzard>, width: int, height: int, k: nat)
  {
    Goal(width, height) in Frontier({Point(0, 0)}, wind, width, height, k).0
  }

  /** The finding about the test of a candidate: as written, a cell right of
   *  the valley (x == width, in the right wall and beyond) is kept. */
  lemma KeepsBeyondWall(winds: set<Point>, width: int, height: int, y: int)
    requires 0 <= y < height <= width && Point(width, y) !in winds
    ensures Keep(Point(width, y), winds, width, height) && !Inside(Point(width, y), width, height)
  {
  }

  /** The evidently intended test: x bounded by `width`, y by `height`. */
  predicate KeepInside(q: Point, winds: set<Point>, width: int, height: int)
  {
    (q !in winds && q.x >= 0 && q.x < width && q.y >= 0 && q.y < height) || q == Goal(width, height)
  }

  /** With the intended test, every kept cell is a blizzard-free cell of the
   *  valley or the exit, and in a valley at most as tall as it is wide it
   *  keeps a subset of what the written test keeps. */
  lemma KeepInsideMeaning(q: Point, winds: set<Point>, width: int, height: int)
    ensures KeepInside(q, winds, width, height) <==>
      (Inside(q, width, height) && q !in winds) || q == Goal(width, height)
    ensures height <= width && KeepInside(q, winds, width, height) ==> Keep(q, winds, width, height)
  {
  }

  /** The valley: the blizzards and the inner size. */
  class Maze {
    var wind: seq<Blizzard>
    var width: int
    var height: int

    constructor(wind: seq<Blizzard>, width: int, height: int)
      ensures this.wind == wind && this.width == width && this.height == height
    {
      this.wind := wind;
      this.width := width;
      this.height := height;
    }

    /** `move_wind`: every blizzard in place by one minute. */
    method MoveWind()
      modifies this
      ensures width == old(width) && height == old(height)
      ensures wind == MoveAll(old(wind), width, height)
    {
      var i := 0;
      while i < |wind|
        invariant width == old(width) && height == old(height)
        invariant 0 <= i <= |wind| == |old(wind)|
        invariant wind[..i] == MoveAll(old(wind), width, height)[..i]
        invariant wind[i..] == old(wind)[i..]
      {
        var b := wind[i];
        var p := b.position;
        var moved;
        match b.direction {
          case Up =>
            var y := p.y - 1;
            if y < 0 {
              y := height - 1;
            }
            moved := Blizzard(Point(p.x, y), Up);
          case Right =>
            var x := p.x + 1;
            if x > width - 1 {
              x := 0;
            }
            moved := Blizzard(Point(x, p.y), Right);
          case Down =>
            var y := p.y + 1;
            if y > height - 1 {
              y := 0;
            }
            moved := Blizzard(Point(p.x, y), Down);
          case Left =>
            var x := p.x - 1;
            if x < 0 {
              x := width - 1;
            }
            moved := Blizzard(Point(x, p.y), Left);
        }
        assert moved == Step(old(wind)[i], width, height);
        wind := wind[i := moved];
        i := i + 1;
      }
      assert wind == wind[..i];
    }

    /** The cells under a blizzard (the `wind_position` set). */
    method WindPositions() returns (winds: set<Point>)
      ensures winds == Positions(wind)
    {
      winds := {};
      for i := 0 to |wind|
        invariant winds == set j | 0 <= j < i :: wind[j].position
      {
        winds := winds + {wind[i].position};
      }
    }

    /** The candidates of one position (the inner loop over the offsets). */
    method Candidates(p: Point, winds: set<Point>) returns (kept: seq<Point>)
      ensures kept == KeptFrom(p, winds, width, height, 5)
    {
      kept := [];
      var offsets := Offsets();
      for j := 0 to 5
        invariant kept == KeptFrom(p, winds, width, height, j)
      {
        var q := Plus(p, offsets[j]);
        if q !in winds {
          if q.x >= 0 && q.y < width && q.y >= 0 && q.y < height {
            kept := kept + [q];
          }
        }
        if q == Goal(width, height) {
          kept := kept + [q];
        }
      }
    }

    /** One new frontier (the `map`, `flatten` and `collect` over `state`). */
    method Advance(state: set<Point>, winds: set<Point>) returns (next: set<Point>)
      ensures next == Expand(state, winds, width, height)
    {
      next := {};
      var rest := state;
      while rest != {}
        invariant rest <= state
        invariant next == Expand(state - rest, winds, width, height)
        decreases |rest|
      {
        ghost var g := Pick(rest);
        var p :| p in rest;
        var kept := Candidates(p, winds);
        for j := 0 to |kept|
          invariant next == Expand(state - rest, winds, width, height) + set q | q in kept[..j]
        {
          next := next + {kept[j]};
          assert kept[..j + 1] == kept[..j] + [kept[j]];
        }
        assert kept[..|kept|] == kept;
        assert state - (rest - {p}) == (state - rest) + {p};
        rest := rest - {p};
      }
      assert state - rest == state;
    }

    /** `solve_min_distance`, for at most `fuel` minutes: the first minute
     *  whose frontier holds the exit, or None when none up to `fuel` does. */
    method SolveMinDistance(fuel: nat) returns (r: Option<nat>)
      modifies this
      ensures width == old(width) && height == old(height)
      ensures r.Some? ==> 1 <= r.value <= fuel && Reached(old(wind), width, height, r.value)
      ensures r.Some? ==> forall k :: 1 <= k < r.value ==> !Reached(old(wind), width, height, k)
      ensures r.None? ==> forall k :: 1 <= k <= fuel ==> !Reached(old(wind), width, height, k)
    {
      ghost var wind0 := wind;
      var state := {Point(0, 0)};
      var round := 0;
      while round < fuel
        invariant width == old(width) && height == old(height)
        invariant round <= fuel
        invariant (state, wind) == Frontier({Point(0, 0)}, wind0, width, height, round)
        invariant forall k :: 1 <= k <= round ==> !Reached(wind0, width, height, k)
      {
        MoveWind();
        var winds := WindPositions();
        state := Advance(state, winds);
        if Goal(width, height) in state {
          return Some(round + 1);
        }
        round := round + 1;
      }
      return None;
    }
  }

  /** The direction of a blizzard character. */
  function ArrowOf(c: char): (r: Option<Direction>)
    ensures r.Some? <==> c in "^>v<"
  {
    if c == '^' then Some(Up)
    else if c == '>' then Some(Right)
    else if c == 'v' then Some(Down)
    else if c == '<' then Some(Left)
    else None
  }

  /** The blizzards of one row `y`, from the characters after the first. */
  function CellsWind(cells: string, y: int): seq<Blizzard>
  {
    if cells == [] then []
    else
      var x := |cells| - 1;
      CellsWind(cells[..x], y) + (match ArrowOf(cells[x]) case Some(d) => [Blizzard(Point(x, y), d)] case None => [])
  }

  function RowWind(line: string, y: int): seq<Blizzard>
  {
    if line == [] then [] else CellsWind(line[1..], y)
  }

  /** The blizzards of the rows below the header, row by row. */
  function WindOf(rows: seq<string>): seq<Blizzard>
  {
    if rows == [] then [] else WindOf(rows[..|rows| - 1]) + RowWind(rows[|rows| - 1], |rows| - 1)
  }

  lemma {:induction false} CellsWindMeaning(cells: string, y: int)
    ensures forall b :: b in CellsWind(cells, y) <==>
      b.position.y == y && 0 <= b.position.x < |cells| && ArrowOf(cells[b.position.x]) == Some(b.direction)
  {
    if cells != [] {
      var x := |cells| - 1;
      CellsWindMeaning(cells[..x], y);
    }
  }

  /** A blizzard is read exactly where a row has an arrow: at the row's
   *  index and one column left of the character, past the left wall. */
  lemma {:induction false} WindOfMeaning(rows: seq<string>)
    ensures forall b :: b in WindOf(rows) <==>
      && 0 <= b.position.y < |rows|
      && 0 <= b.position.x && b.position.x + 1 < |rows[b.position.y]|
      && ArrowOf(rows[b.position.y][b.position.x + 1]) == Some(b.direction)
  {
    if rows != [] {
      var y := |rows| - 1;
      WindOfMeaning(rows[..y]);
      var line := rows[y];
      if line != [] {
        CellsWindMeaning(line[1..], y);
      }
    }
  }

  /** `Maze::from_str` reading the header: no first line panics (`unwrap`),
   *  and so does a first line shorter than 2 (`len() - 2` underflows). The
   *  width is the header without its two wall characters; the height is the
   *  index of the last row below the header, that is the number of rows
   *  between the top and the bottom wall. */
  function Dimensions(lines: seq<string>): (r: Result<(int, int)>)
    ensures r.Err? <==> lines == [] || |lines[0]| < 2
    ensures r.Err? ==> r.failure == Panic
    ensures r.Ok? ==> r.value.0 + 2 == |lines[0]|
    ensures r.Ok? && |lines| >= 2 ==> r.value.1 == |lines[1..|lines| - 1]|
    ensures r.Ok? && |lines| < 2 ==> r.value.1 == 0
  {
    if lines == [] || |lines[0]| < 2 then Err(Panic)
    else Ok((|lines[0]| - 2, if |lines| < 2 then 0 else |lines| - 2))
  }

  /** The inner loop of `Maze::from_str`: the arrows of one row. */
  method ReadRow(line: string, y: int) returns (wind: seq<Blizzard>)
    ensures wind == RowWind(line, y)
  {
    wind := [];
    if line == [] {
      return;
    }
    for x := 1 to |line|
      invariant wind == CellsWind(line[1..x], y)
    {
      assert line[1..x + 1][..x - 1] == line[1..x];
      var d := ArrowOf(line[x]);
      if d.Some? {
        wind := wind + [Blizzard(Point(x - 1, y), d.value)];
      }
    }
    assert line[1..|line|] == line[1..];
  }

  /** `Maze::from_str`. */
  method Parse(lines: seq<string>) returns (r: Result<Maze>)
    ensures r.Err? <==> Dimensions(lines).Err?
    ensures r.Err? ==> r.failure == Panic
    ensures r.Ok? ==>
      && fresh(r.value)
      && (r.value.width, r.value.height) == Dimensions(lines).value
      && r.value.wind == WindOf(lines[1..])
  {
    if |lines| == 0 || |lines[0]| < 2 {
      return Err(Panic);
    }
    var width := |lines[0]| - 2;
    var rows := lines[1..];
    var wind := [];
    var height := 0;
    for y := 0 to |rows|
      invariant wind == WindOf(rows[..y])
      invariant height == (if y == 0 then 0 else y - 1)
    {
      assert rows[..y + 1][..y] == rows[..y];
      var row := ReadRow(rows[y], y);
      wind := wind + row;
      height := y;
    }
    assert rows[..|rows|] == rows;
    var m := new Maze(wind, width, height);
    return Ok(m);
  }

  /** `main`: read the valley and search, for at most `fuel` minutes. */
  method Solve(lines: seq<string>, fuel: nat) returns (r: Result<Option<nat>>)
    ensures r.Err? <==> Dimensions(lines).Err?
    ensures r.Err? ==> r.failure == Panic
    ensures r.Ok? && r.value.Some? ==>
      var (width, height) := Dimensions(lines).value;
      && Reached(WindOf(lines[1..]), width, height, r.value.value)
      && forall k :: 1 <= k < r.value.value ==> !Reached(WindOf(lines[1..]), width, height, k)
    ensures r.Ok? && r.value.None? ==>
      var (width, height) := Dimensions(lines).value;
      forall k :: 1 <= k <= fuel ==> !Reached(WindOf(lines[1..]), width, height, k)
  {
    var parsed := Parse(lines);
    if parsed.Err? {
      return Err(Panic);
    }
    var maze := parsed.value;
    var distance := maze.SolveMinDistance(fuel);
    return Ok(distance);
  }
}
