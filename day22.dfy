/** Day 22: walking a board of open tiles and walls by a path of moves and
 *  turns. Stepping off the board wraps to the far end of the same row or
 *  column; a wall stops the move. */
module Day22 {
  import opened Common
  import opened Text

  /** `Direction`, with the values the password uses. */
  datatype Direction = Right | Down | Left | Up

  function Value(d: Direction): (v: nat)
    ensures v < 4
  {
    match d
    case Right => 0
    case Down => 1
    case Left => 2
    case Up => 3
  }

  datatype Turn = R | L

  /** `Direction::turn`: R turns clockwise, L counter-clockwise. */
  function Turned(d: Direction, t: Turn): (r: Direction)
    ensures Value(r) == (Value(d) + (if t == R then 1 else 3)) % 4
  {
    match (t, d)
    case (R, Up) => Right
    case (R, Left) => Up
    case (R, Down) => Left
    case (R, Right) => Down
    case (L, Up) => Left
    case (L, Left) => Down
    case (L, Down) => Right
    case (L, Right) => Up
  }

  /** Directions are told apart by their values. */
  lemma ValueInjective(a: Direction, b: Direction)
    requires Value(a) == Value(b)
    ensures a == b
  {
  }

  /** A turn undoes the opposite turn, and four equal turns come back. */
  lemma {:induction false} TurnsCancel(d: Direction, t: Turn)
    ensures Turned(Turned(d, R), L) == d && Turned(Turned(d, L), R) == d
    ensures Turned(Turned(Turned(Turned(d, t), t), t), t) == d
  {
    ValueInjective(Turned(Turned(d, R), L), d);
    ValueInjective(Turned(Turned(d, L), R), d);
    ValueInjective(Turned(Turned(Turned(Turned(d, t), t), t), t), d);
  }

  datatype Point = Point(x: int, y: int)

  datatype Cursor = Cursor(position: Point, direction: Direction)

  datatype Tile = Open | Wall

  /** `Tile::try_from`: '.' is open, '#' a wall, anything else an error. */
  function ParseTile(c: char): (r: Result<Tile>)
    ensures r.Ok? <==> c == '.' || c == '#'
    ensures r == Ok(Open) <==> c == '.'
    ensures r.Err? ==> r.failure == Error
  {
    if c == '.' then Ok(Open) else if c == '#' then Ok(Wall) else Err(Error)
  }

  /** The tiles of one line, row `y`, added to `m` (non-tile characters are
   *  skipped). */
  function RowTiles(m: map<Point, Tile>, y: int, line: string): map<Point, Tile>
  {
    if line == [] then m
    else
      var prev := RowTiles(m, y, line[..|line| - 1]);
      var x := |line| - 1;
      match ParseTile(line[x])
      case Ok(t) => prev[Point(x, y) := t]
      case Err(_) => prev
  }

  /** The tiles of the board's lines. */
  function TilesOf(lines: seq<string>): map<Point, Tile>
  {
    if lines == [] then map[]
    else RowTiles(TilesOf(lines[..|lines| - 1]), |lines| - 1, lines[|lines| - 1])
  }

  /** Which points `RowTiles` adds and with which tile. */
  lemma {:induction false} RowTilesMeaning(m: map<Point, Tile>, y: int, line: string, p: Point)
    ensures p in RowTiles(m, y, line) <==>
      p in m || (p.y == y && 0 <= p.x < |line| && ParseTile(line[p.x]).Ok?)
    ensures p.y == y && 0 <= p.x < |line| && ParseTile(line[p.x]).Ok? ==>
      RowTiles(m, y, line)[p] == ParseTile(line[p.x]).value
    ensures p in m && !(p.y == y && 0 <= p.x < |line| && ParseTile(line[p.x]).Ok?) ==>
      RowTiles(m, y, line)[p] == m[p]
  {
    if line != [] {
      var front := line[..|line| - 1];
      RowTilesMeaning(m, y, front, p);
      if 0 <= p.x < |front| {
        assert front[p.x] == line[p.x];
      }
    }
  }

  /** The board holds exactly the '.' and '#' characters of the lines, at
   *  (column, line number). */
  lemma {:induction false} TilesOfMeaning(lines: seq<string>, p: Point)
    ensures p in TilesOf(lines) <==>
      0 <= p.y < |lines| && 0 <= p.x < |lines[p.y]| && ParseTile(lines[p.y][p.x]).Ok?
    ensures p in TilesOf(lines) ==> TilesOf(lines)[p] == ParseTile(lines[p.y][p.x]).value
  {
    if lines != [] {
      var front := lines[..|lines| - 1];
      TilesOfMeaning(front, p);
      RowTilesMeaning(TilesOf(front), |lines| - 1, lines[|lines| - 1], p);
      if 0 <= p.y < |front| {
        assert front[p.y] == lines[p.y];
      }
    }
  }

  /** The x coordinates of the tiles in row `y`. */
  function Row(m: map<Point, Tile>, y: int): set<int>
  {
    set p | p in m && p.y == y :: p.x
  }

  /** The y coordinates of the tiles in column `x`. */
  function Column(m: map<Point, Tile>, x: int): set<int>
  {
    set p | p in m && p.x == x :: p.y
  }

  lemma RowMember(m: map<Point, Tile>, y: int, x: int)
    ensures x in Row(m, y) <==> Point(x, y) in m
  {
    if x in Row(m, y) {
      var p :| p in m && p.y == y && p.x == x;
      assert p == Point(x, y);
    }
  }

  lemma ColumnMember(m: map<Point, Tile>, x: int, y: int)
    ensures y in Column(m, x) <==> Point(x, y) in m
  {
    if y in Column(m, x) {
      var p :| p in m && p.x == x && p.y == y;
      assert p == Point(x, y);
    }
  }

  /** The neighbouring cell in the cursor's direction. */
  function Ahead(c: Cursor): (p: Point)
    ensures Abs(p.x - c.position.x) + Abs(p.y - c.position.y) == 1
    ensures c.direction == Left || c.direction == Right <==> p.y == c.position.y
  {
    var p := c.position;
    match c.direction
    case Up => Point(p.x, p.y - 1)
    case Left => Point(p.x - 1, p.y)
    case Down => Point(p.x, p.y + 1)
    case Right => Point(p.x + 1, p.y)
  }

  /** Where stepping off the board lands: the far end of the row or column,
   *  against the direction of travel. */
  ghost function Wrapped(m: map<Point, Tile>, c: Cursor): (p: Point)
    requires c.position in m
    ensures p in m
  {
    var x, y := c.position.x, c.position.y;
    ColumnMember(m, x, y);
    RowMember(m, y, x);
    match c.direction
    case Up =>
      var v := Greatest(Column(m, x)); ColumnMember(m, x, v); Point(x, v)
    case Left =>
      var v := Greatest(Row(m, y)); RowMember(m, y, v); Point(v, y)
    case Down =>
      var v := Least(Column(m, x)); ColumnMember(m, x, v); Point(x, v)
    case Right =>
      var v := Least(Row(m, y)); RowMember(m, y, v); Point(v, y)
  }

  /** `next_tile_position`: the cell ahead if it is on the board, else the
   *  wrapped one. */
  ghost function NextOf(m: map<Point, Tile>, c: Cursor): (p: Point)
    requires c.position in m
  {
    if Ahead(c) in m then Ahead(c) else Wrapped(m, c)
  }

  /** The next position is always on the board, in the cursor's own row
   *  (moving left or right) or column (moving up or down); off the board it
   *  is the extreme tile of that line on the side the cursor came from. */
  lemma NextOnBoard(m: map<Point, Tile>, c: Cursor)
    requires c.position in m
    ensures NextOf(m, c) in m
    ensures c.direction == Left || c.direction == Right ==> NextOf(m, c).y == c.position.y
    ensures c.direction == Up || c.direction == Down ==> NextOf(m, c).x == c.position.x
    ensures Ahead(c) !in m && c.direction == Right ==> IsLeast(Row(m, c.position.y), NextOf(m, c).x)
    ensures Ahead(c) !in m && c.direction == Left ==> IsGreatest(Row(m, c.position.y), NextOf(m, c).x)
    ensures Ahead(c) !in m && c.direction == Down ==> IsLeast(Column(m, c.position.x), NextOf(m, c).y)
    ensures Ahead(c) !in m && c.direction == Up ==> IsGreatest(Column(m, c.position.x), NextOf(m, c).y)
  {
  }

  /** One step of a forward move: onto the next position if it is open. */
  ghost function Stepped(m: map<Point, Tile>, c: Cursor): (r: Cursor)
    requires c.position in m
    ensures r.position in m
  {
    var n := NextOf(m, c);
    if m[n] == Open then c.(position := n) else c
  }

  /** `d` steps forward. */
  ghost function Walk(m: map<Point, Tile>, c: Cursor, d: nat): (r: Cursor)
    requires c.position in m
    ensures r.position in m
    decreases d
  {
    if d == 0 then c else Walk(m, Stepped(m, c), d - 1)
  }

  /** The visited map after `d` steps: each step records where the cursor
   *  is and its direction. */
  ghost function Trail(m: map<Point, Tile>, c: Cursor, d: nat, visited: map<Point, Direction>): map<Point, Direction>
    requires c.position in m
    decreases d
  {
    if d == 0 then visited
    else
      var n := Stepped(m, c);
      Trail(m, n, d - 1, visited[n.position := n.direction])
  }

  /** A forward move keeps the direction and ends where it started or on an
   *  open tile. */
  lemma {:induction false} WalkKeeps(m: map<Point, Tile>, c: Cursor, d: nat)
    requires c.position in m
    ensures Walk(m, c, d).direction == c.direction
    ensures Walk(m, c, d).position == c.position || m[Walk(m, c, d).position] == Open
    decreases d
  {
    if d > 0 {
      WalkKeeps(m, Stepped(m, c), d - 1);
    }
  }

  /** Facing a wall, a forward move of any length stays put. */
  lemma {:induction false} WallStops(m: map<Point, Tile>, c: Cursor, d: nat)
    requires c.position in m && m[NextOf(m, c)] == Wall
    ensures Walk(m, c, d) == c
    decreases d
  {
    if d > 0 {
      WallStops(m, c, d - 1);
    }
  }

  /** Every point the trail adds is visited with the move's direction, and
   *  the last position is among them. */
  lemma {:induction false} TrailMarks(m: map<Point, Tile>, c: Cursor, d: nat, visited: map<Point, Direction>)
    requires c.position in m
    ensures visited.Keys <= Trail(m, c, d, visited).Keys
    ensures d > 0 ==>
      && Walk(m, c, d).position in Trail(m, c, d, visited)
      && Trail(m, c, d, visited)[Walk(m, c, d).position] == c.direction
    decreases d
  {
    if d > 0 {
      var n := Stepped(m, c);
      TrailMarks(m, n, d - 1, visited[n.position := n.direction]);
      if d > 1 {
        WalkKeeps(m, n, d - 1);
      }
    }
  }

  /** `Path`: a turn, or a forward move of some distance. */
  datatype Path = Rotate(turn: Turn) | Forward(distance: nat)

  /** The cursor after one path step. */
  ghost function Moved(m: map<Point, Tile>, c: Cursor, step: Path): (r: Cursor)
    requires c.position in m
    ensures r.position in m
  {
    match step
    case Rotate(t) => c.(direction := Turned(c.direction, t))
    case Forward(d) => Walk(m, c, d)
  }

  /** The cursor after a whole path. */
  ghost function Followed(m: map<Point, Tile>, c: Cursor, path: seq<Path>): (r: Cursor)
    requires c.position in m
    ensures r.position in m
    decreases |path|
  {
    if path == [] then c else Followed(m, Moved(m, c, path[0]), path[1..])
  }

  /** `Board`: the tiles, the visited cells and the cursor. */
  class Board {
    var tiles: map<Point, Tile>
    var visited: map<Point, Direction>
    var cursor: Cursor

    predicate Valid()
      reads this
    {
      cursor.position in tiles
    }

    /** A board whose cursor starts at (`startX`, 0), facing right. */
    constructor(tiles: map<Point, Tile>, startX: int)
      requires Point(startX, 0) in tiles
      ensures Valid()
      ensures this.tiles == tiles && visited == map[] && cursor == Cursor(Point(startX, 0), Right)
    {
      this.tiles := tiles;
      visited := map[];
      cursor := Cursor(Point(startX, 0), Right);
    }

    /** `next_tile_position`. */
    method NextTilePosition() returns (p: Point)
      requires Valid()
      ensures p == NextOf(tiles, cursor) && p in tiles
    {
      var ahead := Ahead(cursor);
      if ahead in tiles {
        return ahead;
      }
      var x, y := cursor.position.x, cursor.position.y;
      ColumnMember(tiles, x, y);
      RowMember(tiles, y, x);
      match cursor.direction
      case Up =>
        var v := GreatestOf(Column(tiles, x));
        p := Point(x, v);
      case Left =>
        var v := GreatestOf(Row(tiles, y));
        p := Point(v, y);
      case Down =>
        var v := LeastOf(Column(tiles, x));
        p := Point(x, v);
      case Right =>
        var v := LeastOf(Row(tiles, y));
        p := Point(v, y);
    }

    /** `move_curor`: a turn changes the direction only; a forward move
     *  steps `distance` times, moving only onto open tiles and recording
     *  each position it is at in `visited`. */
    method MoveCursor(step: Path)
      requires Valid()
      modifies this
      ensures Valid() && tiles == old(tiles)
      ensures cursor == Moved(tiles, old(cursor), step)
      ensures step.Rotate? ==> cursor.position == old(cursor).position && visited == old(visited)
      ensures step.Forward? ==> cursor.direction == old(cursor).direction
      ensures step.Forward? ==> visited == Trail(tiles, old(cursor), step.distance, old(visited))
    {
      match step
      case Rotate(t) =>
        cursor := cursor.(direction := Turned(cursor.direction, t));
      case Forward(distance) =>
        for i := 0 to distance
          invariant Valid() && tiles == old(tiles)
          invariant Walk(tiles, cursor, distance - i) == Walk(tiles, old(cursor), distance)
          invariant Trail(tiles, cursor, distance - i, visited) == Trail(tiles, old(cursor), distance, old(visited))
        {
          var next := NextTilePosition();
          if tiles[next] == Open {
            cursor := cursor.(position := next);
          }
          visited := visited[cursor.position := cursor.direction];
        }
        WalkKeeps(tiles, old(cursor), distance);
    }

    /** The loop of `main` over the path. */
    method Follow(path: seq<Path>)
      requires Valid()
      modifies this
      ensures Valid() && tiles == old(tiles)
      ensures cursor == Followed(tiles, old(cursor), path)
    {
      for i := 0 to |path|
        invariant Valid() && tiles == old(tiles)
        invariant Followed(tiles, cursor, path[i..]) == Followed(tiles, old(cursor), path)
      {
        assert path[i..][1..] == path[i + 1..];
        MoveCursor(path[i]);
      }
    }
  }

  /** The tiles of the lines, one row at a time (`Board::from_str`). */
  method ReadRow(m: map<Point, Tile>, y: int, line: string) returns (out: map<Point, Tile>)
    ensures out == RowTiles(m, y, line)
  {
    out := m;
    for x := 0 to |line|
      invariant out == RowTiles(m, y, line[..x])
    {
      assert line[..x + 1][..x] == line[..x];
      var t := ParseTile(line[x]);
      if t.Ok? {
        out := out[Point(x, y) := t.value];
      }
    }
    assert line[..|line|] == line;
  }

  method ReadTiles(lines: seq<string>) returns (m: map<Point, Tile>)
    ensures m == TilesOf(lines)
  {
    m := map[];
    for y := 0 to |lines|
      invariant m == TilesOf(lines[..y])
    {
      assert lines[..y + 1][..y] == lines[..y];
      m := ReadRow(m, y, lines[y]);
    }
    assert lines[..|lines|] == lines;
  }

  /** The start column: the smallest x among the tiles of row 0; a board
   *  without one panics (`unwrap`). */
  method FindStart(m: map<Point, Tile>) returns (r: Result<int>)
    ensures r.Ok? <==> Row(m, 0) != {}
    ensures r.Ok? ==> r.value == Least(Row(m, 0)) && Point(r.value, 0) in m
    ensures r.Err? ==> r.failure == Panic
  {
    var row := Row(m, 0);
    if row == {} {
      return Err(Panic);
    }
    var x := LeastOf(row);
    RowMember(m, 0, x);
    return Ok(x);
  }

  /** `Board::from_str`. */
  method ReadBoard(lines: seq<string>) returns (r: Result<Board>)
    ensures r.Ok? <==> Row(TilesOf(lines), 0) != {}
    ensures r.Err? ==> r.failure == Panic
    ensures r.Ok? ==>
      && fresh(r.value) && r.value.Valid() && r.value.tiles == TilesOf(lines)
      && r.value.visited == map[]
      && r.value.cursor == Cursor(Point(Least(Row(TilesOf(lines), 0)), 0), Right)
  {
    var m := ReadTiles(lines);
    var start := FindStart(m);
    if start.Err? {
      return Err(Panic);
    }
    var board := new Board(m, start.value);
    return Ok(board);
  }

  /** The start of the board is its first tile on the first line. */
  lemma StartIsFirstTile(lines: seq<string>, x: int)
    requires Row(TilesOf(lines), 0) != {} && x == Least(Row(TilesOf(lines), 0))
    ensures |lines| > 0 && 0 <= x < |lines[0]| && ParseTile(lines[0][x]).Ok?
    ensures forall k :: 0 <= k < x ==> ParseTile(lines[0][k]).Err?
  {
    var m := TilesOf(lines);
    RowMember(m, 0, x);
    TilesOfMeaning(lines, Point(x, 0));
    forall k | 0 <= k < x
      ensures ParseTile(lines[0][k]).Err?
    {
      RowMember(m, 0, k);
      TilesOfMeaning(lines, Point(k, 0));
    }
  }

  /** The forward distance a run of digits stands for; an unparsable run is
   *  an error. An empty run adds nothing. */
  function Flush(num: string): (r: Result<seq<Path>>)
    ensures r.Ok? ==> |r.value| <= 1 && (r.value == [] <==> num == [])
    ensures r.Err? ==> r.failure == Error
  {
    if num == [] then Ok([])
    else
      match ParseUnsigned(num, U64_MAX)
      case None => Err(Error)
      case Some(n) => Ok([Forward(n)])
  }

  predicate IsTurn(c: char)
  {
    c == 'R' || c == 'L'
  }

  function TurnOf(c: char): Turn
    requires IsTurn(c)
  {
    if c == 'R' then R else L
  }

  /** The path still to come from `s`, with the digits `num` read so far. */
  function PathOf(s: string, num: string): Result<seq<Path>>
    decreases |s|
  {
    if s == [] then Flush(num)
    else if IsTurn(s[0]) then
      match Flush(num)
      case Err(f) => Err(f)
      case Ok(front) =>
        match PathOf(s[1..], [])
        case Err(f) => Err(f)
        case Ok(rest) => Ok(front + [Rotate(TurnOf(s[0]))] + rest)
    else PathOf(s[1..], num + [s[0]])
  }

  /** The steps parsed so far, in front of those still to come. */
  function Prepend(path: seq<Path>, r: Result<seq<Path>>): Result<seq<Path>>
  {
    if r.Err? then r else Ok(path + r.value)
  }

  /** `parse_path`: digits accumulate into a forward distance, flushed
   *  before each turn letter and at the end. */
  method ParsePath(s: string) returns (r: Result<seq<Path>>)
    ensures r == PathOf(s, [])
  {
    var path: seq<Path> := [];
    var num: string := [];
    assert s[0..] == s;
    assert PathOf(s, []).Ok? ==> [] + PathOf(s, []).value == PathOf(s, []).value;
    for i := 0 to |s|
      invariant Prepend(path, PathOf(s[i..], num)) == PathOf(s, [])
    {
      assert s[i..][1..] == s[i + 1..];
      if IsTurn(s[i]) {
        var front := Flush(num);
        if front.Err? {
          return Err(Error);
        }
        TurnStep(path, front.value, s[i..], num);
        path := path + front.value + [Rotate(TurnOf(s[i]))];
        num := [];
      } else {
        num := num + [s[i]];
      }
    }
    assert s[|s|..] == [];
    r := Flush(num);
    if r.Ok? {
      r := Ok(path + r.value);
    }
  }

  lemma TurnStep(path: seq<Path>, front: seq<Path>, s: string, num: string)
    requires s != [] && IsTurn(s[0]) && Flush(num) == Ok(front)
    ensures Prepend(path + front + [Rotate(TurnOf(s[0]))], PathOf(s[1..], [])) == Prepend(path, PathOf(s, num))
  {
    var rest := PathOf(s[1..], []);
    if rest.Ok? {
      assert PathOf(s, num) == Ok(front + [Rotate(TurnOf(s[0]))] + rest.value);
      assert path + front + [Rotate(TurnOf(s[0]))] + rest.value == path + (front + [Rotate(TurnOf(s[0]))] + rest.value);
    }
  }

  /** A path no two forward moves of which are adjacent (otherwise their
   *  digits would merge), with distances a usize holds. */
  predicate Printable(path: seq<Path>)
  {
    && (forall i :: 0 <= i < |path| && path[i].Forward? ==> path[i].distance <= U64_MAX)
    && (forall i :: 0 < i < |path| && path[i].Forward? ==> path[i - 1].Rotate?)
  }

  /** The text of a path, as in the puzzle input. */
  function PathText(path: seq<Path>): string
  {
    if path == [] then []
    else
      (match path[0]
       case Rotate(t) => if t == R then "R" else "L"
       case Forward(d) => NatToString(d))
      + PathText(path[1..])
  }

  lemma PrintableTail(path: seq<Path>, k: nat)
    requires Printable(path) && k <= |path|
    ensures Printable(path[k..])
  {
    forall i | 0 <= i < |path[k..]|
      ensures path[k..][i] == path[i + k]
    {
    }
  }

  /** Digits other than turn letters are only collected. */
  lemma {:induction false} CollectDigits(d: string, rest: string, num: string)
    requires forall i :: 0 <= i < |d| ==> !IsTurn(d[i])
    ensures PathOf(d + rest, num) == PathOf(rest, num + d)
    decreases |d|
  {
    if d != [] {
      assert (d + rest)[0] == d[0] && !IsTurn(d[0]);
      assert (d + rest)[1..] == d[1..] + rest;
      assert PathOf(d + rest, num) == PathOf(d[1..] + rest, num + [d[0]]);
      CollectDigits(d[1..], rest, num + [d[0]]);
      assert num + [d[0]] + d[1..] == num + d;
    } else {
      assert d + rest == rest && num + d == num;
    }
  }

  /** Parsing the text of a printable path gives it back. */
  lemma {:induction false} ParsePathText(path: seq<Path>)
    requires Printable(path)
    ensures PathOf(PathText(path), []) == Ok(path)
    decreases |path|
  {
    if path != [] {
      PrintableTail(path, 1);
      if path[0].Rotate? {
        ParsePathText(path[1..]);
        TurnFirst(path);
      } else {
        assert path[0].Forward? && path[0].distance <= U64_MAX;
        if |path| == 1 {
          ForwardText(path[0].distance, []);
          assert path[1..] == [];
          assert PathText(path) == NatToString(path[0].distance) + [];
          assert PathOf([], NatToString(path[0].distance)) == Ok([Forward(path[0].distance)]);
          assert path == [Forward(path[0].distance)];
        } else {
          PrintableTail(path, 2);
          ParsePathText(path[2..]);
          ForwardFirst(path);
        }
      }
    }
  }

  lemma TurnFirst(path: seq<Path>)
    requires path != [] && path[0].Rotate? && PathOf(PathText(path[1..]), []) == Ok(path[1..])
    ensures PathOf(PathText(path), []) == Ok(path)
  {
    var t := path[0].turn;
    var text := PathText(path);
    assert text == [if t == R then 'R' else 'L'] + PathText(path[1..]);
    assert text[1..] == PathText(path[1..]) && IsTurn(text[0]) && TurnOf(text[0]) == t;
    assert PathOf(text, []) == Ok([] + [Rotate(t)] + path[1..]);
    assert [] + [Rotate(t)] + path[1..] == path;
  }

  /** The digits of a distance, then the rest, read as that forward move
   *  flushed by whatever ends the run. */
  lemma ForwardText(d: nat, rest: string)
    requires d <= U64_MAX
    ensures PathOf(NatToString(d) + rest, []) == PathOf(rest, NatToString(d))
    ensures Flush(NatToString(d)) == Ok([Forward(d)])
  {
    var digits := NatToString(d);
    assert forall i :: 0 <= i < |digits| ==> IsDigit(digits[i]);
    CollectDigits(digits, rest, []);
    assert [] + digits == digits;
    ParseNatToString(d, U64_MAX);
  }

  lemma ForwardFirst(path: seq<Path>)
    requires |path| >= 2 && path[0].Forward? && path[0].distance <= U64_MAX && path[1].Rotate?
    requires PathOf(PathText(path[2..]), []) == Ok(path[2..])
    ensures PathOf(PathText(path), []) == Ok(path)
  {
    var d, t := path[0].distance, path[1].turn;
    var tail := PathText(path[1..]);
    assert path[1..][1..] == path[2..];
    assert tail == [if t == R then 'R' else 'L'] + PathText(path[2..]);
    assert tail[1..] == PathText(path[2..]) && IsTurn(tail[0]) && TurnOf(tail[0]) == t;
    ForwardText(d, tail);
    assert PathText(path) == NatToString(d) + tail;
    assert PathOf(tail, NatToString(d)) == Ok([Forward(d)] + [Rotate(t)] + path[2..]);
    assert [Forward(d)] + [Rotate(t)] + path[2..] == path;
  }

  /** The example path of the puzzle. */
  lemma ExamplePath()
    ensures PathOf("10R5L5", []) == Ok([Forward(10), Rotate(R), Forward(5), Rotate(L), Forward(5)])
  {
    var path := [Forward(10), Rotate(R), Forward(5), Rotate(L), Forward(5)];
    ParsePathText(path);
    assert NatToString(10) == "10" && NatToString(5) == "5";
    assert PathText(path[4..]) == "5";
    assert PathText(path[3..]) == "L5";
    assert PathText(path[2..]) == "5L5";
    assert PathText(path[1..]) == "R5L5";
    assert PathText(path) == "10R5L5";
  }

  /** The password: 1000 per row, 4 per column (both counted from 1) and
   *  the facing. */
  function Password(c: Cursor): (r: int)
    ensures r % 4 == Value(c.direction)
  {
    1000 * (c.position.y + 1) + 4 * (c.position.x + 1) + Value(c.direction)
  }

  /** On a board less than 249 columns wide the password gives back the
   *  row, the column and the facing. */
  lemma PasswordDecodes(c: Cursor)
    requires 0 <= c.position.x < 249 && 0 <= c.position.y
    ensures Password(c) / 1000 == c.position.y + 1
    ensures (Password(c) % 1000) / 4 == c.position.x + 1
    ensures Password(c) % 4 == Value(c.direction)
  {
    var low := 4 * (c.position.x + 1) + Value(c.direction);
    assert 0 <= low < 1000;
    assert Password(c) == 1000 * (c.position.y + 1) + low;
  }

  /** `main`: read the board and the path, which are separated by an empty
   *  line, follow the path and compute the password. */
  method Solve(input: string) returns (r: Result<int>)
    ensures (|Split(input, "\n\n")| < 2 || Row(TilesOf(Split(Split(input, "\n\n")[0], "\n")), 0) == {}) ==> r == Err(Panic)
    ensures r.Err? && |Split(input, "\n\n")| >= 2 && Row(TilesOf(Split(Split(input, "\n\n")[0], "\n")), 0) != {} ==>
      r == Err(Error) && PathOf(Split(input, "\n\n")[1], []).Err?
    ensures r.Ok? ==>
      var parts := Split(input, "\n\n");
      var m := TilesOf(Split(parts[0], "\n"));
      |parts| >= 2 && Row(m, 0) != {} && PathOf(parts[1], []).Ok? &&
      r.value == Password(Followed(m, Cursor(Point(Least(Row(m, 0)), 0), Right), PathOf(parts[1], []).value))
  {
    var parts := Split(input, "\n\n");
    var board := ReadBoard(Split(parts[0], "\n"));
    if board.Err? {
      return Err(Panic);
    }
    if |parts| < 2 {
      return Err(Panic);
    }
    var path := ParsePath(parts[1]);
    if path.Err? {
      return Err(Error);
    }
    board.value.Follow(path.value);
    return Ok(Password(board.value.cursor));
  }
}
