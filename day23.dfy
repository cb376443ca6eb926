/** Day 23: elves spreading out on an unbounded grid. Each round every elf
 *  with a neighbour proposes a step in the first of four directions whose
 *  three cells ahead are empty; an elf moves only if no other elf proposes
 *  the same cell; then the order of the directions rotates. */
module Day23 {
  import opened Common

  datatype Point = Point(x: int, y: int)

  function Plus(a: Point, b: Point): (r: Point)
    ensures r.x - a.x == b.x && r.y - a.y == b.y
  {
    Point(a.x + b.x, a.y + b.y)
  }

  /** The checks in their initial order: north, south, west, east. Each
   *  group lists the three cells to look at, the move first. */
  function InitialChecks(): (c: seq<seq<Point>>)
    ensures |c| == 4 && forall i :: 0 <= i < 4 ==> |c[i]| == 3
  {
    [[Point(0, -1), Point(1, -1), Point(-1, -1)],
     [Point(0, 1), Point(1, 1), Point(-1, 1)],
     [Point(-1, 0), Point(-1, 1), Point(-1, -1)],
     [Point(1, 0), Point(1, 1), Point(1, -1)]]
  }

  /** Every group of checks has a move (`checks[0]` does not panic). */
  predicate HasMoves(checks: seq<seq<Point>>)
  {
    forall i :: 0 <= i < |checks| ==> checks[i] != []
  }

  /** An elf at offset (dx, dy), one of the eight neighbours. */
  predicate NeighbourAt(elves: set<Point>, elf: Point, dx: int, dy: int)
  {
    (dx != 0 || dy != 0) && Point(elf.x + dx, elf.y + dy) in elves
  }

  predicate HasNeighbour(elves: set<Point>, elf: Point)
  {
    exists dx, dy :: -1 <= dx <= 1 && -1 <= dy <= 1 && NeighbourAt(elves, elf, dx, dy)
  }

  /** No elf on any cell of the group. */
  predicate Clear(elves: set<Point>, elf: Point, group: seq<Point>)
  {
    forall k :: 0 <= k < |group| ==> Plus(elf, group[k]) !in elves
  }

  /** The move of the first clear group, or staying put when none is. */
  function FirstClear(elves: set<Point>, elf: Point, checks: seq<seq<Point>>): Point
    requires HasMoves(checks)
  {
    if checks == [] then elf
    else if Clear(elves, elf, checks[0]) then Plus(elf, checks[0][0])
    else FirstClear(elves, elf, checks[1..])
  }

  /** `next_move`: an elf without neighbours stays; otherwise it proposes
   *  the move of the first clear group. */
  function Proposal(elves: set<Point>, checks: seq<seq<Point>>, elf: Point): Point
    requires HasMoves(checks)
  {
    if !HasNeighbour(elves, elf) then elf else FirstClear(elves, elf, checks)
  }

  /** `FirstClear` picks group `k`: all groups before it are blocked and it
   *  is clear; or every group is blocked and the elf stays. */
  lemma {:induction false} FirstClearMeaning(elves: set<Point>, elf: Point, checks: seq<seq<Point>>)
    returns (k: nat)
    requires HasMoves(checks)
    ensures k <= |checks| && forall j :: 0 <= j < k ==> !Clear(elves, elf, checks[j])
    ensures k < |checks| ==> Clear(elves, elf, checks[k]) && FirstClear(elves, elf, checks) == Plus(elf, checks[k][0])
    ensures k == |checks| ==> FirstClear(elves, elf, checks) == elf
    decreases |checks|
  {
    if checks == [] || Clear(elves, elf, checks[0]) {
      k := 0;
    } else {
      var rest := checks[1..];
      var j := FirstClearMeaning(elves, elf, rest);
      k := j + 1;
      forall i | 0 <= i < k
        ensures !Clear(elves, elf, checks[i])
      {
        if i > 0 {
          assert checks[i] == rest[i - 1];
        }
      }
    }
  }

  /** A proposed cell is the elf's own or an empty one. */
  lemma ProposalEmpty(elves: set<Point>, checks: seq<seq<Point>>, elf: Point)
    requires HasMoves(checks)
    ensures Proposal(elves, checks, elf) == elf || Proposal(elves, checks, elf) !in elves
  {
    var k := FirstClearMeaning(elves, elf, checks);
    if k < |checks| {
      assert Plus(elf, checks[k][0]) !in elves;
    }
  }

  /** Some other elf proposes `target`. */
  predicate Contested(elves: set<Point>, checks: seq<seq<Point>>, pos: Point, target: Point)
    requires HasMoves(checks)
  {
    exists p :: p in elves && p != pos && Proposal(elves, checks, p) == target
  }

  /** Where the elf at `pos` ends the round. */
  function Destination(elves: set<Point>, checks: seq<seq<Point>>, pos: Point): Point
    requires HasMoves(checks)
  {
    var target := Proposal(elves, checks, pos);
    if Contested(elves, checks, pos, target) then pos else target
  }

  /** The elves after a round. */
  function Moved(elves: set<Point>, checks: seq<seq<Point>>): set<Point>
    requires HasMoves(checks)
  {
    set pos | pos in elves :: Destination(elves, checks, pos)
  }

  /** Two elves never end a round on the same cell. */
  lemma DestinationsDiffer(elves: set<Point>, checks: seq<seq<Point>>, a: Point, b: Point)
    requires HasMoves(checks) && a in elves && b in elves && a != b
    ensures Destination(elves, checks, a) != Destination(elves, checks, b)
  {
    ProposalEmpty(elves, checks, a);
    ProposalEmpty(elves, checks, b);
    var ta, tb := Proposal(elves, checks, a), Proposal(elves, checks, b);
    // an uncontested target is proposed by no other elf, b included
    assert !Contested(elves, checks, a, ta) ==> tb != ta by {
      if tb == ta {
        assert b in elves && b != a && Proposal(elves, checks, b) == ta;
      }
    }
  }

  /** The destinations of a part of the elves. */
  function DestinationsOf(elves: set<Point>, checks: seq<seq<Point>>, part: set<Point>): set<Point>
    requires HasMoves(checks)
  {
    set pos | pos in part :: Destination(elves, checks, pos)
  }

  /** One more elf adds its destination. */
  lemma DestinationsAdd(elves: set<Point>, checks: seq<seq<Point>>, part: set<Point>, pos: Point)
    requires HasMoves(checks)
    ensures DestinationsOf(elves, checks, part + {pos}) == DestinationsOf(elves, checks, part) + {Destination(elves, checks, pos)}
  {
  }

  lemma {:induction false} DestinationsCount(elves: set<Point>, checks: seq<seq<Point>>, part: set<Point>)
    requires HasMoves(checks) && part <= elves
    ensures |DestinationsOf(elves, checks, part)| == |part|
    decreases |part|
  {
    if part != {} {
      var x := Pick(part);
      var rest := part - {x};
      DestinationsCount(elves, checks, rest);
      var d := Destination(elves, checks, x);
      assert DestinationsOf(elves, checks, part) == DestinationsOf(elves, checks, rest) + {d};
      forall y | y in rest
        ensures Destination(elves, checks, y) != d
      {
        DestinationsDiffer(elves, checks, y, x);
      }
      assert d !in DestinationsOf(elves, checks, rest);
    } else {
      assert DestinationsOf(elves, checks, part) == {};
    }
  }

  /** A round keeps the number of elves. */
  lemma MovedCount(elves: set<Point>, checks: seq<seq<Point>>)
    requires HasMoves(checks)
    ensures |Moved(elves, checks)| == |elves|
  {
    DestinationsCount(elves, checks, elves);
    assert Moved(elves, checks) == DestinationsOf(elves, checks, elves);
  }

  /** The first group of checks goes to the back. */
  function RotateLeft(checks: seq<seq<Point>>): (r: seq<seq<Point>>)
    requires |checks| > 0
    ensures |r| == |checks| && r[|r| - 1] == checks[0]
    ensures forall i :: 0 <= i < |r| - 1 ==> r[i] == checks[i + 1]
  {
    checks[1..] + [checks[0]]
  }

  /** Four rotations of four groups restore their order. */
  lemma FourRotations(checks: seq<seq<Point>>)
    requires |checks| == 4
    ensures RotateLeft(RotateLeft(RotateLeft(RotateLeft(checks)))) == checks
  {
    var r1 := RotateLeft(checks);
    var r2 := RotateLeft(r1);
    var r3 := RotateLeft(r2);
    assert r1 == [checks[1], checks[2], checks[3], checks[0]];
    assert r2 == [checks[2], checks[3], checks[0], checks[1]];
    assert r3 == [checks[3], checks[0], checks[1], checks[2]];
  }

  lemma RotateKeepsMoves(checks: seq<seq<Point>>)
    requires |checks| > 0 && HasMoves(checks)
    ensures HasMoves(RotateLeft(checks))
  {
    var r := RotateLeft(checks);
    forall i | 0 <= i < |r|
      ensures r[i] != []
    {
      if i < |checks| - 1 {
        assert r[i] == checks[i + 1];
      }
    }
  }

  /** The elves and the checks after `n` rounds. */
  ghost function Spread(elves: set<Point>, checks: seq<seq<Point>>, n: nat): (seq<seq<Point>>, set<Point>)
    requires |checks| > 0 && HasMoves(checks)
    decreases n
  {
    if n == 0 then (checks, elves)
    else
      RotateKeepsMoves(checks);
      Spread(Moved(elves, checks), RotateLeft(checks), n - 1)
  }

  /** Any number of rounds keeps the number of elves. */
  lemma {:induction false} SpreadCount(elves: set<Point>, checks: seq<seq<Point>>, n: nat)
    requires |checks| > 0 && HasMoves(checks)
    ensures |Spread(elves, checks, n).1| == |elves|
    decreases n
  {
    if n > 0 {
      MovedCount(elves, checks);
      RotateKeepsMoves(checks);
      SpreadCount(Moved(elves, checks), RotateLeft(checks), n - 1);
    }
  }

  /** The x and y coordinates of the elves. */
  function Xs(elves: set<Point>): set<int>
  {
    set p | p in elves :: p.x
  }

  function Ys(elves: set<Point>): set<int>
  {
    set p | p in elves :: p.y
  }

  /** The cells of the bounding box of the elves. */
  ghost function Area(elves: set<Point>): int
    requires elves != {}
  {
    var p :| p in elves;
    assert p.x in Xs(elves) && p.y in Ys(elves);
    (Greatest(Xs(elves)) - Least(Xs(elves)) + 1) * (Greatest(Ys(elves)) - Least(Ys(elves)) + 1)
  }

  /** The empty cells of column `x` between rows `y0` (included) and `y1`
   *  (excluded). */
  function ColumnMissing(elves: set<Point>, x: int, y0: int, y1: int): nat
    decreases y1 - y0
  {
    if y1 <= y0 then 0
    else ColumnMissing(elves, x, y0, y1 - 1) + (if Point(x, y1 - 1) in elves then 0 else 1)
  }

  /** The empty cells of the box of columns [x0, x1) and rows [y0, y1). */
  function BoxMissing(elves: set<Point>, x0: int, x1: int, y0: int, y1: int): nat
    decreases x1 - x0
  {
    if x1 <= x0 then 0
    else BoxMissing(elves, x0, x1 - 1, y0, y1) + ColumnMissing(elves, x1 - 1, y0, y1)
  }

  function ColumnElves(elves: set<Point>, x: int, y0: int, y1: int): set<Point>
  {
    set p | p in elves && p.x == x && y0 <= p.y < y1
  }

  function BoxElves(elves: set<Point>, x0: int, x1: int, y0: int, y1: int): set<Point>
  {
    set p | p in elves && x0 <= p.x < x1 && y0 <= p.y < y1
  }

  /** A column's empty and occupied cells make up its height. */
  lemma {:induction false} ColumnCount(elves: set<Point>, x: int, y0: int, y1: int)
    requires y0 <= y1
    ensures ColumnMissing(elves, x, y0, y1) + |ColumnElves(elves, x, y0, y1)| == y1 - y0
    decreases y1 - y0
  {
    if y0 < y1 {
      ColumnCount(elves, x, y0, y1 - 1);
      var p := Point(x, y1 - 1);
      if p in elves {
        assert ColumnElves(elves, x, y0, y1) == ColumnElves(elves, x, y0, y1 - 1) + {p};
      } else {
        assert ColumnElves(elves, x, y0, y1) == ColumnElves(elves, x, y0, y1 - 1);
      }
    } else {
      assert ColumnElves(elves, x, y0, y1) == {};
    }
  }

  /** A box's empty and occupied cells make up its area. */
  lemma {:induction false} BoxCount(elves: set<Point>, x0: int, x1: int, y0: int, y1: int)
    requires x0 <= x1 && y0 <= y1
    ensures BoxMissing(elves, x0, x1, y0, y1) + |BoxElves(elves, x0, x1, y0, y1)| == (x1 - x0) * (y1 - y0)
    decreases x1 - x0
  {
    if x0 < x1 {
      BoxCount(elves, x0, x1 - 1, y0, y1);
      ColumnCount(elves, x1 - 1, y0, y1);
      var front, column := BoxElves(elves, x0, x1 - 1, y0, y1), ColumnElves(elves, x1 - 1, y0, y1);
      assert BoxElves(elves, x0, x1, y0, y1) == front + column;
      assert front * column == {};
      assert (x1 - x0) * (y1 - y0) == (x1 - 1 - x0) * (y1 - y0) + (y1 - y0);
    } else {
      assert BoxElves(elves, x0, x1, y0, y1) == {};
    }
  }

  /** `Map`: the elves (the source's map only ever holds `Tile::Elf`) and
   *  the queue of checks. */
  class Map {
    var elves: set<Point>
    var checks: seq<seq<Point>>

    predicate Valid()
      reads this
    {
      |checks| == 4 && HasMoves(checks)
    }

    constructor(elves: set<Point>)
      ensures Valid() && this.elves == elves && checks == InitialChecks()
    {
      this.elves := elves;
      checks := InitialChecks();
    }

    /** The neighbour scan of `next_move`. */
    method Neighbours(elf: Point) returns (has: bool)
      ensures has == HasNeighbour(elves, elf)
    {
      has := false;
      for x := -1 to 2
        invariant has <==> exists dx, dy :: -1 <= dx < x && -1 <= dy <= 1 && NeighbourAt(elves, elf, dx, dy)
      {
        for y := -1 to 2
          invariant has <==>
            (exists dx, dy :: -1 <= dx < x && -1 <= dy <= 1 && NeighbourAt(elves, elf, dx, dy)) ||
            (exists dy :: -1 <= dy < y && NeighbourAt(elves, elf, x, dy))
        {
          if !(x == 0 && y == 0) {
            has := has || Point(elf.x + x, elf.y + y) in elves;
          }
          assert has <==>
            (exists dx, dy :: -1 <= dx < x && -1 <= dy <= 1 && NeighbourAt(elves, elf, dx, dy)) ||
            (exists dy :: -1 <= dy < y && NeighbourAt(elves, elf, x, dy)) ||
            NeighbourAt(elves, elf, x, y);
        }
      }
    }

    /** `next_move`. */
    method NextMove(elf: Point) returns (p: Point)
      requires Valid()
      ensures p == Proposal(elves, checks, elf)
    {
      var has := Neighbours(elf);
      if !has {
        return elf;
      }
      for i := 0 to |checks|
        invariant FirstClear(elves, elf, checks[i..]) == FirstClear(elves, elf, checks)
      {
        assert checks[i..][1..] == checks[i + 1..];
        if Clear(elves, elf, checks[i]) {
          return Plus(elf, checks[i][0]);
        }
      }
      return elf;
    }

    /** `move_elves`: every elf goes to its proposal unless another elf
     *  proposes the same cell; then the checks rotate. */
    method MoveElves()
      requires Valid()
      modifies this
      ensures Valid()
      ensures elves == Moved(old(elves), old(checks)) && checks == RotateLeft(old(checks))
      ensures |elves| == |old(elves)|
    {
      var next := Destinations();
      MovedCount(elves, checks);
      RotateKeepsMoves(checks);
      elves := next;
      checks := RotateLeft(checks);
    }

    /** The loop of `move_elves` over the elves: where each one ends the
     *  round, its proposal if no other elf proposed the same cell, else its
     *  own cell. */
    method Destinations() returns (next: set<Point>)
      requires Valid()
      ensures next == Moved(elves, checks)
    {
      next := {};
      var rest := elves;
      while rest != {}
        invariant rest <= elves
        invariant next == DestinationsOf(elves, checks, elves - rest)
        decreases |rest|
      {
        ghost var g := Pick(rest);
        var pos :| pos in rest;
        var target := NextMove(pos);
        DestinationsAdd(elves, checks, elves - rest, pos);
        if !Contested(elves, checks, pos, target) {
          next := next + {target};
        } else {
          next := next + {pos};
        }
        assert elves - (rest - {pos}) == (elves - rest) + {pos};
        rest := rest - {pos};
      }
      assert elves - rest == elves;
      assert Moved(elves, checks) == DestinationsOf(elves, checks, elves);
    }

    /** `n` rounds of `move_elves`. */
    method Run(n: nat)
      requires Valid()
      modifies this
      ensures Valid() && (checks, elves) == Spread(old(elves), old(checks), n)
    {
      for i := 0 to n
        invariant Valid() && Spread(elves, checks, n - i) == Spread(old(elves), old(checks), n)
      {
        ghost var before := (elves, checks);
        MoveElves();
        assert Spread(before.0, before.1, n - i) == Spread(elves, checks, n - i - 1);
      }
    }

    /** The empty cells of one column of the bounding box. */
    method CountColumn(x: int, y0: int, y1: int) returns (count: nat)
      ensures count == ColumnMissing(elves, x, y0, y1)
    {
      count := 0;
      if y1 <= y0 {
        return;
      }
      for y := y0 to y1
        invariant count == ColumnMissing(elves, x, y0, y)
      {
        if Point(x, y) !in elves {
          count := count + 1;
        }
      }
    }

    /** `count_space`: the empty cells of the bounding box of the elves;
     *  without elves the bounds do not exist and it panics. */
    method CountSpace() returns (r: Result<nat>)
      ensures elves == {} ==> r == Err(Panic)
      ensures elves != {} ==> r == Ok(Area(elves) - |elves|)
    {
      if elves == {} {
        return Err(Panic);
      }
      ghost var some := Pick(elves);
      assert some.x in Xs(elves) && some.y in Ys(elves);
      var minX := LeastOf(Xs(elves));
      var maxX := GreatestOf(Xs(elves));
      var minY := LeastOf(Ys(elves));
      var maxY := GreatestOf(Ys(elves));
      var count := 0;
      for x := minX to maxX + 1
        invariant count == BoxMissing(elves, minX, x, minY, maxY + 1)
      {
        var column := CountColumn(x, minY, maxY + 1);
        count := count + column;
      }
      BoxCount(elves, minX, maxX + 1, minY, maxY + 1);
      assert BoxElves(elves, minX, maxX + 1, minY, maxY + 1) == elves by {
        forall p | p in elves
          ensures minX <= p.x <= maxX && minY <= p.y <= maxY
        {
          assert p.x in Xs(elves) && p.y in Ys(elves);
        }
      }
      return Ok(count);
    }
  }

  /** The elves of one line, row `y`: '#' is an elf, '.' empty, anything
   *  else an error. */
  function RowElves(elves: set<Point>, y: int, line: string): (r: Result<set<Point>>)
    ensures r.Err? ==> r.failure == Error
  {
    if line == [] then Ok(elves)
    else
      var x := |line| - 1;
      match RowElves(elves, y, line[..x])
      case Err(f) => Err(f)
      case Ok(prev) =>
        if line[x] == '.' then Ok(prev)
        else if line[x] == '#' then Ok(prev + {Point(x, y)})
        else Err(Error)
  }

  function ElvesOf(lines: seq<string>): (r: Result<set<Point>>)
    ensures r.Err? ==> r.failure == Error
  {
    if lines == [] then Ok({})
    else
      match ElvesOf(lines[..|lines| - 1])
      case Err(f) => Err(f)
      case Ok(prev) => RowElves(prev, |lines| - 1, lines[|lines| - 1])
  }

  /** A line is accepted exactly when it holds only '.' and '#'; its elves
   *  are the '#' characters. */
  lemma {:induction false} RowElvesMeaning(elves: set<Point>, y: int, line: string)
    ensures RowElves(elves, y, line).Ok? <==> forall i :: 0 <= i < |line| ==> line[i] == '.' || line[i] == '#'
    ensures RowElves(elves, y, line).Ok? ==>
      forall p :: p in RowElves(elves, y, line).value <==>
        p in elves || (p.y == y && 0 <= p.x < |line| && line[p.x] == '#')
  {
    if line != [] {
      var x := |line| - 1;
      var front := line[..x];
      RowElvesMeaning(elves, y, front);
      assert forall i :: 0 <= i < x ==> front[i] == line[i];
    }
  }

  /** The input is accepted exactly when it holds only '.', '#' and line
   *  breaks; the elves are at the '#' characters, at (column, line). */
  lemma {:induction false} ElvesOfMeaning(lines: seq<string>)
    ensures ElvesOf(lines).Ok? <==>
      forall j, i :: 0 <= j < |lines| && 0 <= i < |lines[j]| ==> lines[j][i] == '.' || lines[j][i] == '#'
    ensures ElvesOf(lines).Ok? ==>
      forall p :: p in ElvesOf(lines).value <==>
        0 <= p.y < |lines| && 0 <= p.x < |lines[p.y]| && lines[p.y][p.x] == '#'
  {
    if lines != [] {
      var front := lines[..|lines| - 1];
      ElvesOfMeaning(front);
      assert forall j :: 0 <= j < |front| ==> front[j] == lines[j];
      if ElvesOf(front).Ok? {
        RowElvesMeaning(ElvesOf(front).value, |lines| - 1, lines[|lines| - 1]);
      }
    }
  }

  method ReadRow(elves: set<Point>, y: int, line: string) returns (r: Result<set<Point>>)
    ensures r == RowElves(elves, y, line)
  {
    var out := elves;
    for x := 0 to |line|
      invariant RowElves(elves, y, line[..x]) == Ok(out)
    {
      assert line[..x + 1][..x] == line[..x];
      var c := line[x];
      if c == '#' {
        out := out + {Point(x, y)};
      } else if c != '.' {
        RowFails(elves, y, line, x);
        return Err(Error);
      }
    }
    assert line[..|line|] == line;
    return Ok(out);
  }

  /** A bad character fails the whole line. */
  lemma {:induction false} RowFails(elves: set<Point>, y: int, line: string, x: nat)
    requires x < |line| && line[x] != '.' && line[x] != '#' && RowElves(elves, y, line[..x]).Ok?
    ensures RowElves(elves, y, line) == Err(Error)
  {
    RowElvesMeaning(elves, y, line);
    assert !(line[x] == '.' || line[x] == '#');
  }

  /** `Map::from_str`. */
  method Parse(lines: seq<string>) returns (r: Result<Map>)
    ensures r.Err? <==> ElvesOf(lines).Err?
    ensures r.Err? ==> r.failure == Error
    ensures r.Ok? ==>
      && fresh(r.value) && r.value.Valid()
      && r.value.elves == ElvesOf(lines).value
      && r.value.checks == InitialChecks()
  {
    var elves: set<Point> := {};
    for y := 0 to |lines|
      invariant ElvesOf(lines[..y]) == Ok(elves)
    {
      assert lines[..y + 1][..y] == lines[..y];
      var row := ReadRow(elves, y, lines[y]);
      if row.Err? {
        LinesFail(lines, y + 1);
        return Err(Error);
      }
      elves := row.value;
    }
    assert lines[..|lines|] == lines;
    var m := new Map(elves);
    return Ok(m);
  }

  /** A failing prefix fails the whole input. */
  lemma {:induction false} LinesFail(lines: seq<string>, j: nat)
    requires j <= |lines| && ElvesOf(lines[..j]).Err?
    ensures ElvesOf(lines).Err?
    decreases |lines| - j
  {
    if j < |lines| {
      assert lines[..j + 1][..j] == lines[..j];
      LinesFail(lines, j + 1);
    } else {
      assert lines[..j] == lines;
    }
  }

  const Rounds: nat := 10

  /** The elves after the rounds of `main`. */
  ghost function Final(elves: set<Point>): set<Point>
  {
    Spread(elves, InitialChecks(), Rounds).1
  }

  /** `main`: ten rounds, then the empty cells of the bounding box. */
  method Solve(lines: seq<string>) returns (r: Result<nat>)
    ensures ElvesOf(lines).Err? ==> r == Err(Error)
    ensures ElvesOf(lines).Ok? && ElvesOf(lines).value == {} ==> r == Err(Panic)
    ensures ElvesOf(lines).Ok? && ElvesOf(lines).value != {} ==>
      Final(ElvesOf(lines).value) != {} && r == Ok(Area(Final(ElvesOf(lines).value)) - |ElvesOf(lines).value|)
  {
    var parsed := Parse(lines);
    if parsed.Err? {
      return Err(Error);
    }
    var m := parsed.value;
    m.Run(Rounds);
    SpreadCount(ElvesOf(lines).value, InitialChecks(), Rounds);
    r := m.CountSpace();
  }
}
