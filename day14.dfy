/** Day 14: regolith reservoir. Rock paths are drawn into a cave map, then
 *  grains of sand fall from (500, 0) until they rest or drop below the
 *  lowest corner the paths recorded. */
module Day14 {
  import opened Common
  import opened Text

  /** `Position`, with `usize` coordinates. */
  datatype Position = Position(x: nat, y: nat)

  datatype Cell = Air | Rock | Sand

  /** `Position::down`. */
  function Down(p: Position): (r: Position)
    ensures r.x == p.x && r.y == p.y + 1
  {
    Position(p.x, p.y + 1)
  }

  /** `Position::down_left`; the `usize` subtraction needs `x >= 1`. */
  function DownLeft(p: Position): (r: Position)
    requires p.x >= 1
    ensures r.x + 1 == p.x && r.y == p.y + 1
  {
    Position(p.x - 1, p.y + 1)
  }

  /** `Position::down_right`. */
  function DownRight(p: Position): (r: Position)
    ensures r.x == p.x + 1 && r.y == p.y + 1
  {
    Position(p.x + 1, p.y + 1)
  }

  /** The three moves reach the three cells of the next row that touch the
   *  current cell, each a different one. */
  lemma Moves(p: Position)
    requires p.x >= 1
    ensures Down(p).y == DownLeft(p).y == DownRight(p).y == p.y + 1
    ensures DownLeft(p).x + 1 == Down(p).x == DownRight(p).x - 1 == p.x
  {
  }

  /** `Position::from_str`: "x,y". A missing y panics; a bad number is an
   *  error, the x checked first. */
  function ParsePosition(s: string): (r: Result<Position>)
    ensures r.Ok? ==> r.value.x <= U64_MAX && r.value.y <= U64_MAX
  {
    var parts := Split(s, ",");
    match ParseUnsigned(parts[0], U64_MAX)
    case None => Err(Error)
    case Some(x) =>
      if |parts| < 2 then Err(Panic)
      else
        match ParseUnsigned(parts[1], U64_MAX)
        case None => Err(Error)
        case Some(y) => Ok(Position(x, y))
  }

  /** Printing the coordinates with a comma between them and parsing gives
   *  the position back. */
  lemma ParsePrinted(p: Position)
    requires p.x <= U64_MAX && p.y <= U64_MAX
    ensures ParsePosition(NatToString(p.x) + "," + NatToString(p.y)) == Ok(p)
  {
    var sx, sy := NatToString(p.x), NatToString(p.y);
    assert Join([sx, sy], ",") == sx + "," + sy by {
      assert [sx, sy][1..] == [sy];
    }
    forall k | 0 <= k < 2
      ensures NoChar([sx, sy][k], ',')
    {
      assert AllDigits([sx, sy][k]);
    }
    SplitJoin([sx, sy], ',');
    ParseNatToString(p.x, U64_MAX);
    ParseNatToString(p.y, U64_MAX);
  }

  /** The corners after the first of a line: any bad one panics, since the
   *  source unwraps them. */
  function ParseCorners(pieces: seq<string>): (r: Result<seq<Position>>)
    ensures r.Ok? ==> |r.value| == |pieces|
    ensures r.Err? ==> r.failure == Panic
  {
    if pieces == [] then Ok([])
    else
      match ParsePosition(pieces[0])
      case Err(_) => Err(Panic)
      case Ok(p) =>
        match ParseCorners(pieces[1..])
        case Err(f) => Err(f)
        case Ok(ps) => Ok([p] + ps)
  }

  /** One line of the scan: its corners, split at " -> ". A bad first corner
   *  is passed on as it is. */
  function ParsePath(line: string): (r: Result<seq<Position>>)
    ensures r.Ok? ==> |r.value| >= 1
  {
    var pieces := Split(line, " -> ");
    match ParsePosition(pieces[0])
    case Err(f) => Err(f)
    case Ok(first) =>
      match ParseCorners(pieces[1..])
      case Err(f) => Err(f)
      case Ok(rest) => Ok([first] + rest)
  }

  /** All lines, the first failure winning. */
  function ParseAll(lines: seq<string>): (r: Result<seq<seq<Position>>>)
    ensures r.Ok? ==> |r.value| == |lines|
  {
    if lines == [] then Ok([])
    else
      match ParseAll(lines[..|lines| - 1])
      case Err(f) => Err(f)
      case Ok(paths) =>
        match ParsePath(lines[|lines| - 1])
        case Err(f) => Err(f)
        case Ok(path) => Ok(paths + [path])
  }

  /** A failure in the first lines is the failure of the whole scan. */
  lemma {:induction false} ParseAllFails(lines: seq<string>, j: nat)
    requires j <= |lines| && ParseAll(lines[..j]).Err?
    ensures ParseAll(lines) == ParseAll(lines[..j])
    decreases |lines|
  {
    if j < |lines| {
      assert lines[..|lines| - 1][..j] == lines[..j];
      ParseAllFails(lines[..|lines| - 1], j);
    } else {
      assert lines[..j] == lines;
    }
  }

  /** The cells a segment marks: the column between its ends when the x
   *  coordinates agree, the row between them when the y coordinates agree,
   *  both ends included. */
  predicate Vertical(p: Position, a: Position, b: Position)
  {
    a.x == b.x && p.x == a.x && Min(a.y, b.y) <= p.y <= Max(a.y, b.y)
  }

  predicate Horizontal(p: Position, a: Position, b: Position)
  {
    a.y == b.y && p.y == a.y && Min(a.x, b.x) <= p.x <= Max(a.x, b.x)
  }

  predicate OnSegment(p: Position, a: Position, b: Position)
  {
    Vertical(p, a, b) || Horizontal(p, a, b)
  }

  /** `p` lies on one of the segments between consecutive corners. */
  predicate OnPath(p: Position, corners: seq<Position>)
  {
    |corners| >= 2
    && (OnPath(p, corners[..|corners| - 1]) || OnSegment(p, corners[|corners| - 2], corners[|corners| - 1]))
  }

  /** `p` lies on one of the paths. */
  predicate InRocks(p: Position, paths: seq<seq<Position>>)
  {
    |paths| >= 1 && (InRocks(p, paths[..|paths| - 1]) || OnPath(p, paths[|paths| - 1]))
  }

  lemma {:induction false} OnPathMeaning(p: Position, corners: seq<Position>)
    ensures OnPath(p, corners) <==> exists i :: 1 <= i < |corners| && OnSegment(p, corners[i - 1], corners[i])
    decreases |corners|
  {
    if |corners| >= 2 {
      var init := corners[..|corners| - 1];
      OnPathMeaning(p, init);
      if OnPath(p, init) {
        var i :| 1 <= i < |init| && OnSegment(p, init[i - 1], init[i]);
        assert corners[i - 1] == init[i - 1] && corners[i] == init[i];
      }
      if exists i :: 1 <= i < |corners| && OnSegment(p, corners[i - 1], corners[i]) {
        var i :| 1 <= i < |corners| && OnSegment(p, corners[i - 1], corners[i]);
        if i < |corners| - 1 {
          assert corners[i - 1] == init[i - 1] && corners[i] == init[i];
        }
      }
    }
  }

  /** The largest y over the corners after the first, or 0. */
  function PathBottom(corners: seq<Position>): nat
  {
    if |corners| <= 1 then 0 else Max(PathBottom(corners[..|corners| - 1]), corners[|corners| - 1].y)
  }

  /** `bottom`: the largest y over all corners except each path's first, or 0. */
  function Bottom(paths: seq<seq<Position>>): nat
  {
    if paths == [] then 0 else Max(Bottom(paths[..|paths| - 1]), PathBottom(paths[|paths| - 1]))
  }

  lemma {:induction false} PathBottomMeaning(corners: seq<Position>)
    ensures forall k :: 1 <= k < |corners| ==> corners[k].y <= PathBottom(corners)
    ensures PathBottom(corners) == 0 || exists k :: 1 <= k < |corners| && corners[k].y == PathBottom(corners)
    decreases |corners|
  {
    if |corners| > 1 {
      var init := corners[..|corners| - 1];
      PathBottomMeaning(init);
      forall k | 1 <= k < |init| ensures corners[k].y <= PathBottom(corners) {
        assert corners[k] == init[k];
      }
      if PathBottom(corners) != corners[|corners| - 1].y && PathBottom(corners) != 0 {
        var k :| 1 <= k < |init| && init[k].y == PathBottom(init);
        assert corners[k] == init[k];
      }
    }
  }

  /** `bottom` bounds the y of every corner but the first of each path, and
   *  is one of them unless it is 0. */
  lemma {:induction false} BottomMeaning(paths: seq<seq<Position>>)
    ensures forall j, k :: 0 <= j < |paths| && 1 <= k < |paths[j]| ==> paths[j][k].y <= Bottom(paths)
    ensures Bottom(paths) == 0 ||
      exists j, k :: 0 <= j < |paths| && 1 <= k < |paths[j]| && paths[j][k].y == Bottom(paths)
    decreases |paths|
  {
    if paths != [] {
      var init := paths[..|paths| - 1];
      var last := paths[|paths| - 1];
      BottomMeaning(init);
      PathBottomMeaning(last);
      forall j, k | 0 <= j < |paths| && 1 <= k < |paths[j]| ensures paths[j][k].y <= Bottom(paths) {
        if j < |init| {
          assert paths[j] == init[j];
        }
      }
      if Bottom(paths) != 0 {
        if Bottom(paths) == PathBottom(last) {
          var k :| 1 <= k < |last| && last[k].y == PathBottom(last);
          assert paths[|paths| - 1][k].y == Bottom(paths);
        } else {
          var j, k :| 0 <= j < |init| && 1 <= k < |init[j]| && init[j][k].y == Bottom(init);
          assert paths[j] == init[j];
        }
      }
    }
  }

  /** The first corner of a path draws rock but does not count toward
   *  `bottom`: a path from (500, 9) up to (500, 2) leaves rock at y = 9
   *  below a `bottom` of 2. */
  lemma FirstCornerIgnored()
    ensures var paths := [[Position(500, 9), Position(500, 2)]];
      Bottom(paths) == 2 && InRocks(Position(500, 9), paths)
  {
    var path := [Position(500, 9), Position(500, 2)];
    var paths := [path];
    assert paths[..0] == [];
    assert path[..1] == [Position(500, 9)];
    assert OnSegment(Position(500, 9), path[0], path[1]);
  }

  /** The evidently intended `bottom`: the largest y over every corner of a
   *  path, the first included, or 0. */
  function PathFloor(corners: seq<Position>): nat
  {
    if corners == [] then 0 else Max(PathFloor(corners[..|corners| - 1]), corners[|corners| - 1].y)
  }

  function Floor(paths: seq<seq<Position>>): nat
  {
    if paths == [] then 0 else Max(Floor(paths[..|paths| - 1]), PathFloor(paths[|paths| - 1]))
  }

  /** Every cell a path draws lies at or above its floor, which is no higher
   *  than the written bottom of the path. */
  lemma {:induction false} PathFloorBounds(p: Position, corners: seq<Position>)
    ensures OnPath(p, corners) ==> p.y <= PathFloor(corners)
    ensures PathBottom(corners) <= PathFloor(corners)
    decreases |corners|
  {
    if corners != [] {
      var init := corners[..|corners| - 1];
      PathFloorBounds(p, init);
      if |corners| >= 2 {
        assert init[|init| - 1] == corners[|corners| - 2];
      }
    }
  }

  /** With the corrected bottom no rock lies below it, and it is never above
   *  the written one. */
  lemma {:induction false} FloorBoundsRocks(p: Position, paths: seq<seq<Position>>)
    ensures InRocks(p, paths) ==> p.y <= Floor(paths)
    ensures Bottom(paths) <= Floor(paths)
    decreases |paths|
  {
    if paths != [] {
      FloorBoundsRocks(p, paths[..|paths| - 1]);
      PathFloorBounds(p, paths[|paths| - 1]);
    }
  }

  /** The cave as `from_str` leaves it: the cell map and `bottom`. */
  datatype Layout = Layout(cave: map<Position, Cell>, bottom: nat)

  /** The cells marked are exactly those on the paths, all of them Rock, and
   *  `bottom` is `Bottom(paths)`. */
  ghost predicate Describes(cave: map<Position, Cell>, bottom: nat, paths: seq<seq<Position>>)
  {
    (forall p :: p in cave <==> InRocks(p, paths))
    && (forall p :: p in cave ==> cave[p] == Rock)
    && bottom == Bottom(paths)
  }

  /** The two `for` loops of one segment: the column, then the row. */
  method DrawSegment(cave: map<Position, Cell>, prev: Position, next: Position) returns (out: map<Position, Cell>)
    ensures forall p :: p in out <==> p in cave || OnSegment(p, prev, next)
    ensures forall p :: p in out ==> out[p] == (if OnSegment(p, prev, next) then Rock else cave[p])
  {
    out := cave;
    if prev.x == next.x {
      out := DrawColumn(out, prev.x, Min(next.y, prev.y), Max(next.y, prev.y));
    }
    if prev.y == next.y {
      out := DrawRow(out, prev.y, Min(next.x, prev.x), Max(next.x, prev.x));
    }
  }

  /** The vertical loop of `draw`: rock at column x from row startY to stopY. */
  method DrawColumn(cave: map<Position, Cell>, x: nat, startY: nat, stopY: nat) returns (out: map<Position, Cell>)
    ensures forall p :: p in out <==> p in cave || (p.x == x && startY <= p.y <= stopY)
    ensures forall p :: p in out ==> out[p] == (if p.x == x && startY <= p.y <= stopY then Rock else cave[p])
  {
    out := cave;
    var y := startY;
    while y <= stopY
      invariant startY <= y <= Max(startY, stopY + 1)
      invariant forall p :: p in out <==> p in cave || (p.x == x && startY <= p.y < y)
      invariant forall p :: p in out ==> out[p] == (if p.x == x && startY <= p.y < y then Rock else cave[p])
    {
      out := out[Position(x, y) := Rock];
      y := y + 1;
    }
  }

  /** The horizontal loop of `draw`: rock at row y from column startX to stopX. */
  method DrawRow(cave: map<Position, Cell>, y: nat, startX: nat, stopX: nat) returns (out: map<Position, Cell>)
    ensures forall p :: p in out <==> p in cave || (p.y == y && startX <= p.x <= stopX)
    ensures forall p :: p in out ==> out[p] == (if p.y == y && startX <= p.x <= stopX then Rock else cave[p])
  {
    out := cave;
    var x := startX;
    while x <= stopX
      invariant startX <= x <= Max(startX, stopX + 1)
      invariant forall p :: p in out <==> p in cave || (p.y == y && startX <= p.x < x)
      invariant forall p :: p in out ==> out[p] == (if p.y == y && startX <= p.x < x then Rock else cave[p])
    {
      out := out[Position(x, y) := Rock];
      x := x + 1;
    }
  }

  /** The `while let` loop over one line's corners: each segment from the
   *  previous corner to the next is drawn, and `bottom` is raised to every
   *  corner after the first. */
  method DrawPath(cave: map<Position, Cell>, bottom: nat, corners: seq<Position>)
    returns (out: map<Position, Cell>, newBottom: nat)
    requires |corners| >= 1
    ensures forall p :: p in out <==> p in cave || OnPath(p, corners)
    ensures forall p :: p in out ==> out[p] == (if OnPath(p, corners) then Rock else cave[p])
    ensures newBottom == Max(bottom, PathBottom(corners))
  {
    out, newBottom := cave, bottom;
    var prev := corners[0];
    assert corners[..1] == [prev];
    for i := 1 to |corners|
      invariant prev == corners[i - 1]
      invariant forall p :: p in out <==> p in cave || OnPath(p, corners[..i])
      invariant forall p :: p in out ==> out[p] == (if OnPath(p, corners[..i]) then Rock else cave[p])
      invariant newBottom == Max(bottom, PathBottom(corners[..i]))
    {
      var next := corners[i];
      assert corners[..i + 1][..i] == corners[..i];
      out := DrawSegment(out, prev, next);
      newBottom := Max(newBottom, next.y);
      prev := next;
    }
    assert corners[..|corners|] == corners;
  }

  /** Adding a path to the scan adds its cells and its corners. */
  lemma AddPath(paths: seq<seq<Position>>, corners: seq<Position>)
    ensures forall p :: InRocks(p, paths + [corners]) <==> InRocks(p, paths) || OnPath(p, corners)
    ensures Bottom(paths + [corners]) == Max(Bottom(paths), PathBottom(corners))
  {
    assert (paths + [corners])[..|paths|] == paths;
  }

  /** `Cave::from_str`: every line is parsed, each segment drawn as Rock and
   *  `bottom` raised to the y of every corner after the first. */
  method FromLines(lines: seq<string>) returns (r: Result<Layout>)
    ensures ParseAll(lines).Err? ==> r == Err(ParseAll(lines).failure)
    ensures ParseAll(lines).Ok? ==> r.Ok? && Describes(r.value.cave, r.value.bottom, ParseAll(lines).value)
  {
    var cave: map<Position, Cell> := map[];
    var bottom: nat := 0;
    ghost var paths: seq<seq<Position>> := [];
    assert lines[..0] == [];
    for j := 0 to |lines|
      invariant ParseAll(lines[..j]) == Ok(paths)
      invariant Describes(cave, bottom, paths)
    {
      assert lines[..j + 1][..j] == lines[..j];
      var parsed := ParsePath(lines[j]);
      if parsed.Err? {
        ParseAllFails(lines, j + 1);
        return Err(parsed.failure);
      }
      cave, bottom := DrawPath(cave, bottom, parsed.value);
      AddPath(paths, parsed.value);
      paths := paths + [parsed.value];
    }
    assert lines[..|lines|] == lines;
    return Ok(Layout(cave, bottom));
  }

  const Source := Position(500, 0)

  /** An absent cell counts as Air. */
  predicate IsAir(cave: map<Position, Cell>, p: Position)
  {
    p !in cave || cave[p] == Air
  }

  /** Where a grain at `p` comes to rest: it moves down, else down-left, else
   *  down-right, into Air only, and stops when it is blocked or has dropped
   *  below `bottom`. Cells stay at x >= 1 because the grain starts at
   *  x + y >= 500 and `bottom` is below 500. */
  function Landing(cave: map<Position, Cell>, bottom: nat, p: Position): (r: Position)
    requires p.y <= bottom < 500 && p.x + p.y >= 500
    ensures p.y <= r.y <= bottom + 1
    decreases bottom + 1 - p.y
  {
    if IsAir(cave, Down(p)) then
      (if Down(p).y > bottom then Down(p) else Landing(cave, bottom, Down(p)))
    else if IsAir(cave, DownLeft(p)) then
      (if DownLeft(p).y > bottom then DownLeft(p) else Landing(cave, bottom, DownLeft(p)))
    else if IsAir(cave, DownRight(p)) then
      (if DownRight(p).y > bottom then DownRight(p) else Landing(cave, bottom, DownRight(p)))
    else p
  }

  /** A grain that started in Air lands in Air; if it lands at or above
   *  `bottom`, all three cells below it are taken; otherwise it lies just
   *  below `bottom`. */
  lemma {:induction false} LandingMeaning(cave: map<Position, Cell>, bottom: nat, p: Position)
    requires p.y <= bottom < 500 && p.x + p.y >= 500
    ensures var r := Landing(cave, bottom, p);
      (IsAir(cave, p) ==> IsAir(cave, r))
      && (r.y <= bottom ==> r.x >= 1 && !IsAir(cave, Down(r)) && !IsAir(cave, DownLeft(r)) && !IsAir(cave, DownRight(r)))
      && (r.y > bottom ==> r.y == bottom + 1)
    decreases bottom + 1 - p.y
  {
    if IsAir(cave, Down(p)) {
      if Down(p).y <= bottom { LandingMeaning(cave, bottom, Down(p)); }
    } else if IsAir(cave, DownLeft(p)) {
      if DownLeft(p).y <= bottom { LandingMeaning(cave, bottom, DownLeft(p)); }
    } else if IsAir(cave, DownRight(p)) {
      if DownRight(p).y <= bottom { LandingMeaning(cave, bottom, DownRight(p)); }
    }
  }

  /** `Cave`: the cell map and `bottom`. */
  class Cave {
    var cave: map<Position, Cell>
    var bottom: nat

    constructor(layout: Layout)
      ensures cave == layout.cave && bottom == layout.bottom
    {
      cave := layout.cave;
      bottom := layout.bottom;
    }

    /** `Cave::sand_step`: one grain falls from the source and is stored as
     *  Sand where it lands; the result says whether that is the source. */
    method SandStep() returns (atSource: bool)
      requires bottom < 500
      modifies this
      ensures bottom == old(bottom)
      ensures cave == old(cave)[Landing(old(cave), bottom, Source) := Sand]
      ensures atSource <==> Landing(old(cave), bottom, Source) == Source
    {
      ghost var landing := Landing(cave, bottom, Source);
      var sand := Source;
      while true
        invariant sand.y <= bottom && sand.x + sand.y >= 500
        invariant cave == old(cave) && bottom == old(bottom)
        invariant Landing(cave, bottom, sand) == landing
        decreases bottom + 1 - sand.y
      {
        if IsAir(cave, Down(sand)) {
          sand := Down(sand);
        } else if IsAir(cave, DownLeft(sand)) {
          sand := DownLeft(sand);
        } else if IsAir(cave, DownRight(sand)) {
          sand := DownRight(sand);
        } else {
          cave := cave[sand := Sand];
          break;
        }
        if sand.y > bottom {
          cave := cave[sand := Sand];
          break;
        }
      }
      return sand == Source;
    }
  }

  /** When the source is Air, a step adds exactly one Sand cell, at a cell
   *  that was Air, and changes no other cell. */
  lemma SandStepAddsOne(cave: map<Position, Cell>, bottom: nat)
    requires bottom < 500 && IsAir(cave, Source)
    ensures var r := Landing(cave, bottom, Source);
      IsAir(cave, r)
      && (forall p :: p in cave[r := Sand] <==> p in cave || p == r)
      && (forall p :: p in cave && p != r ==> cave[r := Sand][p] == cave[p])
  {
    LandingMeaning(cave, bottom, Source);
  }
}
