/** Day 18: boiling boulders. Lava droplets are unit cubes; their surface is
 *  counted first as the faces not shared with another cube, then as the
 *  faces reached by steam flooding the box around them. */
module Day18 {
  import opened Common
  import opened Text

  /** `Point`, with `isize` coordinates. */
  datatype Point = Point(x: int, y: int, z: int)

  /** `Point::adjacent`: two coordinates equal and the third within one. */
  predicate Adjacent(a: Point, b: Point)
  {
    (a.x == b.x && a.y == b.y && Abs(a.z - b.z) <= 1)
    || (a.y == b.y && a.z == b.z && Abs(a.x - b.x) <= 1)
    || (a.z == b.z && a.x == b.x && Abs(a.y - b.y) <= 1)
  }

  /** The six face neighbours of a cube. */
  function Faces(c: Point): set<Point>
  {
    {Point(c.x - 1, c.y, c.z), Point(c.x + 1, c.y, c.z), Point(c.x, c.y - 1, c.z),
     Point(c.x, c.y + 1, c.z), Point(c.x, c.y, c.z - 1), Point(c.x, c.y, c.z + 1)}
  }

  /** Adjacency is reflexive and symmetric, and two distinct points are
   *  adjacent exactly when they differ by one in a single coordinate. */
  lemma AdjacentMeaning(a: Point, b: Point)
    ensures Adjacent(a, a)
    ensures Adjacent(a, b) <==> Adjacent(b, a)
    ensures a != b ==> (Adjacent(a, b) <==> b in Faces(a))
  {
  }

  /** `Point::from_str`: "x,y,z"; a missing coordinate panics and a bad
   *  number is an error, in the order x, y, z. */
  function ParsePoint(s: string): (r: Result<Point>)
    ensures r.Ok? ==> var parts := Split(s, ",");
      |parts| >= 3 && ParseSigned(parts[0], I64_MIN, I64_MAX) == Some(r.value.x) &&
      ParseSigned(parts[1], I64_MIN, I64_MAX) == Some(r.value.y) && ParseSigned(parts[2], I64_MIN, I64_MAX) == Some(r.value.z)
    ensures r == Err(Error) ==> var parts := Split(s, ",");
      ParseSigned(parts[0], I64_MIN, I64_MAX).None? ||
      (|parts| >= 2 && ParseSigned(parts[1], I64_MIN, I64_MAX).None?) ||
      (|parts| >= 3 && ParseSigned(parts[2], I64_MIN, I64_MAX).None?)
    ensures r == Err(Panic) ==> |Split(s, ",")| < 3
  {
    var parts := Split(s, ",");
    match ParseSigned(parts[0], I64_MIN, I64_MAX)
    case None => Err(Error)
    case Some(x) =>
      if |parts| < 2 then Err(Panic)
      else
        match ParseSigned(parts[1], I64_MIN, I64_MAX)
        case None => Err(Error)
        case Some(y) =>
          if |parts| < 3 then Err(Panic)
          else
            match ParseSigned(parts[2], I64_MIN, I64_MAX)
            case None => Err(Error)
            case Some(z) => Ok(Point(x, y, z))
  }

  /** The digits of non-negative coordinates joined by commas parse back. */
  lemma ParsePrinted(p: Point)
    requires 0 <= p.x <= I64_MAX && 0 <= p.y <= I64_MAX && 0 <= p.z <= I64_MAX
    ensures ParsePoint(NatToString(p.x) + "," + NatToString(p.y) + "," + NatToString(p.z)) == Ok(p)
  {
    var sx, sy, sz := NatToString(p.x), NatToString(p.y), NatToString(p.z);
    var parts := [sx, sy, sz];
    assert Join(parts, ",") == sx + "," + sy + "," + sz by {
      assert parts[1..] == [sy, sz];
      assert [sy, sz][1..] == [sz];
      assert Join([sy, sz], ",") == sy + "," + sz;
    }
    forall k | 0 <= k < 3
      ensures NoChar(parts[k], ',')
    {
      assert AllDigits(parts[k]);
    }
    SplitJoin(parts, ',');
    SignedDigits(sx, p.x);
    SignedDigits(sy, p.y);
    SignedDigits(sz, p.z);
  }

  lemma SignedDigits(s: string, n: nat)
    requires s == NatToString(n) && n <= I64_MAX
    ensures ParseSigned(s, I64_MIN, I64_MAX) == Some(n)
  {
    NatToStringValue(n);
  }

  /** The input: one point per line; any bad line panics (`unwrap`). */
  function ParseCubes(lines: seq<string>): (r: Result<seq<Point>>)
    ensures r.Ok? ==> |r.value| == |lines| && forall i :: 0 <= i < |lines| ==> ParsePoint(lines[i]) == Ok(r.value[i])
    ensures r.Err? ==> r.failure == Panic
  {
    if lines == [] then Ok([])
    else
      match ParsePoint(lines[0])
      case Err(_) => Err(Panic)
      case Ok(p) =>
        match ParseCubes(lines[1..])
        case Err(f) => Err(f)
        case Ok(ps) => Ok([p] + ps)
  }

  /** How many other cubes of `cubes` touch `cube`. */
  function Covered(cubes: seq<Point>, cube: Point): nat
  {
    if cubes == [] then 0
    else
      Covered(cubes[..|cubes| - 1], cube)
      + (if cubes[|cubes| - 1] != cube && Adjacent(cube, cubes[|cubes| - 1]) then 1 else 0)
  }

  predicate NoRepeats(s: seq<Point>)
  {
    forall i, j :: 0 <= i < j < |s| ==> s[i] != s[j]
  }

  /** The cubes that cover `cube`, as a set. */
  function Covering(cubes: seq<Point>, cube: Point): set<Point>
  {
    set p | p in cubes && p != cube && Adjacent(cube, p)
  }

  /** Without repeated cubes the count is the number of distinct covering
   *  cubes. */
  lemma {:induction false} CoveredCounts(cubes: seq<Point>, cube: Point)
    requires NoRepeats(cubes)
    ensures Covered(cubes, cube) == |Covering(cubes, cube)|
    decreases |cubes|
  {
    if cubes != [] {
      var init := cubes[..|cubes| - 1];
      var last := cubes[|cubes| - 1];
      CoveredCounts(init, cube);
      assert cubes == init + [last];
      assert forall p :: p in cubes <==> p in init || p == last;
      if last != cube && Adjacent(cube, last) {
        assert Covering(cubes, cube) == Covering(init, cube) + {last};
      } else {
        assert Covering(cubes, cube) == Covering(init, cube);
      }
    }
  }

  /** Among distinct cubes, at most six cover any one of them. */
  lemma AtMostSixCover(cubes: seq<Point>, cube: Point)
    requires NoRepeats(cubes)
    ensures Covered(cubes, cube) <= 6
  {
    CoveredCounts(cubes, cube);
    forall p | p in Covering(cubes, cube)
      ensures p in Faces(cube)
    {
      AdjacentMeaning(cube, p);
    }
    SubsetSize(Covering(cubes, cube), Faces(cube));
  }

  /** The inner `filter(..).count()` of part one. */
  method CountCovered(cubes: seq<Point>, cube: Point) returns (covered: nat)
    ensures covered == Covered(cubes, cube)
  {
    covered := 0;
    for i := 0 to |cubes|
      invariant covered == Covered(cubes[..i], cube)
    {
      assert cubes[..i + 1][..i] == cubes[..i];
      if cubes[i] != cube && Adjacent(cube, cubes[i]) {
        covered := covered + 1;
      }
    }
    assert cubes[..|cubes|] == cubes;
  }

  /** Part one over the first `n` cubes: each adds 6 minus the cubes that
   *  cover it; the `usize` subtraction panics below zero. */
  function Exposed(cubes: seq<Point>, n: nat): (r: Result<nat>)
    requires n <= |cubes|
    ensures r.Err? ==> r.failure == Panic
    ensures r.Err? <==> exists k :: 0 <= k < n && Covered(cubes, cubes[k]) > 6
    ensures r.Ok? ==> r.value <= 6 * n
  {
    if n == 0 then Ok(0)
    else
      match Exposed(cubes, n - 1)
      case Err(f) => Err(f)
      case Ok(e) =>
        var covered := Covered(cubes, cubes[n - 1]);
        if covered > 6 then Err(Panic) else Ok(e + (6 - covered))
  }

  /** With distinct cubes part one never panics and counts at most six faces
   *  per cube. */
  lemma {:induction false} DistinctExposed(cubes: seq<Point>, n: nat)
    requires n <= |cubes| && NoRepeats(cubes)
    ensures Exposed(cubes, n).Ok? && Exposed(cubes, n).value <= 6 * n
    decreases n
  {
    if n > 0 {
      DistinctExposed(cubes, n - 1);
      AtMostSixCover(cubes, cubes[n - 1]);
    }
  }

  /** Once part one has panicked it stays panicked. */
  lemma {:induction false} ExposedFails(cubes: seq<Point>, n: nat, k: nat)
    requires n <= k <= |cubes| && Exposed(cubes, n).Err?
    ensures Exposed(cubes, k) == Exposed(cubes, n)
    decreases k - n
  {
    if n < k {
      ExposedFails(cubes, n, k - 1);
    }
  }

  /** The `exposed_sides` loop of `main`. */
  method ExposedSides(cubes: seq<Point>) returns (r: Result<nat>)
    ensures r == Exposed(cubes, |cubes|)
  {
    var exposed: nat := 0;
    for n := 0 to |cubes|
      invariant Exposed(cubes, n) == Ok(exposed)
    {
      var covered := CountCovered(cubes, cubes[n]);
      if covered > 6 {
        ExposedFails(cubes, n + 1, |cubes|);
        return Err(Panic);
      }
      exposed := exposed + (6 - covered);
    }
    return Ok(exposed);
  }

  /** The largest of some values (`max()` on a non-empty iterator). */
  function Largest(s: seq<int>): (m: int)
    requires |s| > 0
    ensures forall i :: 0 <= i < |s| ==> s[i] <= m
    ensures exists i :: 0 <= i < |s| && s[i] == m
  {
    if |s| == 1 then s[0]
    else
      var rest := Largest(s[1..]);
      assert forall i :: 1 <= i < |s| ==> s[i] == s[1..][i - 1];
      if s[0] >= rest then s[0] else rest
  }

  datatype Cell = Air | Steam | Rock

  /** The box the steam may fill: one beyond the largest coordinates, and
   *  one below zero only in x. */
  datatype Box = Box(maxX: int, maxY: int, maxZ: int)

  predicate InBox(b: Box, p: Point)
  {
    -1 <= p.x <= b.maxX + 1 && 0 <= p.y <= b.maxY + 1 && 0 <= p.z <= b.maxZ + 1
  }

  function Cells(b: Box): set<Point>
  {
    set x: int, y: int, z: int | -1 <= x <= b.maxX + 1 && 0 <= y <= b.maxY + 1 && 0 <= z <= b.maxZ + 1 :: Point(x, y, z)
  }

  /** The box cells the steam has not reached and no rock fills. */
  ghost function Unfilled(b: Box, m: map<Point, Cell>): set<Point>
  {
    set p | p in Cells(b) && p !in m
  }

  /** The six offsets of the flood fill, in the source's order. */
  const Offsets: seq<Point> := [Point(-1, 0, 0), Point(1, 0, 0), Point(0, -1, 0), Point(0, 1, 0), Point(0, 0, -1), Point(0, 0, 1)]

  function Shift(p: Point, d: Point): Point
  {
    Point(p.x + d.x, p.y + d.y, p.z + d.z)
  }

  /** The map holds the cubes as Rock and, besides them, only Steam inside
   *  the box; `pushed` lists each Steam cell once, in the order queued. */
  ghost predicate Filling(b: Box, cubes: seq<Point>, m: map<Point, Cell>, pushed: seq<Point>)
  {
    (forall p :: p in cubes ==> p in m && m[p] == Rock)
    && (forall p :: p in m ==> (m[p] == Rock && p in cubes) || (m[p] == Steam && InBox(b, p)))
    && NoRepeats(pushed)
    && (forall p :: p in m && m[p] == Steam <==> p in pushed)
  }

  /** One neighbour in the flood fill: inside the box and Air, it becomes
   *  Steam and is queued at the front. */
  method Visit(b: Box, ghost cubes: seq<Point>, m: map<Point, Cell>, queue: seq<Point>, ghost pushed: seq<Point>, neighbor: Point)
    returns (m': map<Point, Cell>, queue': seq<Point>, ghost pushed': seq<Point>)
    requires Filling(b, cubes, m, pushed)
    ensures Filling(b, cubes, m', pushed')
    ensures |Unfilled(b, m')| <= |Unfilled(b, m)|
    ensures if InBox(b, neighbor) && (neighbor !in m || m[neighbor] == Air)
      then m' == m[neighbor := Steam] && queue' == [neighbor] + queue && pushed' == pushed + [neighbor]
        && |Unfilled(b, m')| < |Unfilled(b, m)|
      else m' == m && queue' == queue && pushed' == pushed
  {
    m', queue', pushed' := m, queue, pushed;
    if neighbor.x < -1 || neighbor.x > b.maxX + 1 || neighbor.y < 0 || neighbor.y > b.maxY + 1
      || neighbor.z < 0 || neighbor.z > b.maxZ + 1
    {
      return;
    }
    if neighbor !in m || m[neighbor] == Air {
      assert neighbor in Cells(b);
      assert Unfilled(b, m[neighbor := Steam]) == Unfilled(b, m) - {neighbor};
      m' := m[neighbor := Steam];
      queue' := [neighbor] + queue;
      pushed' := pushed + [neighbor];
      assert neighbor !in pushed;
    }
  }

  /** The steam fill of `main`: from (0, 0, 0), the queue popped at the back
   *  and pushed at the front. */
  method Flood(b: Box, cubes: seq<Point>) returns (m: map<Point, Cell>, ghost pushed: seq<Point>)
    ensures Filling(b, cubes, m, pushed)
  {
    m := map[];
    for i := 0 to |cubes|
      invariant forall p :: p in m <==> p in cubes[..i]
      invariant forall p :: p in m ==> m[p] == Rock
    {
      m := m[cubes[i] := Rock];
    }
    assert cubes[..|cubes|] == cubes;
    pushed := [];
    var queue := [Point(0, 0, 0)];
    while |queue| > 0
      invariant Filling(b, cubes, m, pushed)
      decreases |Unfilled(b, m)|, |queue|
    {
      var current := queue[|queue| - 1];
      queue := queue[..|queue| - 1];
      ghost var before := Unfilled(b, m);
      ghost var popped := queue;
      for k := 0 to |Offsets|
        invariant Filling(b, cubes, m, pushed)
        invariant |Unfilled(b, m)| <= |before|
        invariant |Unfilled(b, m)| == |before| ==> queue == popped
      {
        m, queue, pushed := Visit(b, cubes, m, queue, pushed, Shift(current, Offsets[k]));
      }
    }
  }

  /** The (rock, steam) pairs of touching cells with the rock in `rs` and the
   *  steam in `ss`. */
  ghost function Touching(m: map<Point, Cell>, rs: set<Point>, ss: set<Point>): set<(Point, Point)>
  {
    set r, s | r in rs && s in ss && r in m && s in m && m[r] == Rock && m[s] == Steam && Adjacent(s, r) :: (r, s)
  }

  /** One more cell adds the steam contacts of that cell, if it is rock. */
  lemma TouchingAdd(m: map<Point, Cell>, done: set<Point>, r: Point)
    requires r in m && r !in done
    ensures |Touching(m, done + {r}, m.Keys)| ==
      |Touching(m, done, m.Keys)| + (if m[r] == Rock then |Touching(m, {r}, m.Keys)| else 0)
  {
    if m[r] == Rock {
      assert Touching(m, done + {r}, m.Keys) == Touching(m, done, m.Keys) + Touching(m, {r}, m.Keys);
      assert Touching(m, done, m.Keys) * Touching(m, {r}, m.Keys) == {};
    } else {
      assert Touching(m, done + {r}, m.Keys) == Touching(m, done, m.Keys);
    }
  }

  /** The inner count: steam cells touching one rock cell (the closure is
   *  only applied to Rock cells). */
  method CountSteam(m: map<Point, Cell>, rock: Point) returns (n: nat)
    requires rock in m && m[rock] == Rock
    ensures n == |Touching(m, {rock}, m.Keys)|
  {
    var rest := m.Keys;
    n := 0;
    while rest != {}
      invariant rest <= m.Keys
      invariant n == |Touching(m, {rock}, m.Keys - rest)|
      decreases |rest|
    {
      var p :| p in rest;
      ghost var done := m.Keys - rest;
      if m[p] == Steam && Adjacent(p, rock) {
        assert Touching(m, {rock}, done + {p}) == Touching(m, {rock}, done) + {(rock, p)};
        assert (rock, p) !in Touching(m, {rock}, done);
        n := n + 1;
      } else {
        assert Touching(m, {rock}, done + {p}) == Touching(m, {rock}, done);
      }
      rest := rest - {p};
      assert m.Keys - rest == done + {p};
    }
    assert m.Keys - rest == m.Keys;
  }

  /** Part two: the faces exposed to steam, summed over the rock cells, that
   *  is, the number of touching (rock, steam) pairs. */
  method ExposedToSteam(m: map<Point, Cell>) returns (total: nat)
    ensures total == |Touching(m, m.Keys, m.Keys)|
  {
    var rest := m.Keys;
    total := 0;
    while rest != {}
      invariant rest <= m.Keys
      invariant total == |Touching(m, m.Keys - rest, m.Keys)|
      decreases |rest|
    {
      var r :| r in rest;
      ghost var done := m.Keys - rest;
      TouchingAdd(m, done, r);
      if m[r] == Rock {
        var n := CountSteam(m, r);
        total := total + n;
      }
      rest := rest - {r};
      assert m.Keys - rest == done + {r};
    }
    assert m.Keys - rest == m.Keys;
  }

  /** `main` without its output: both surface counts. Part one can panic on
   *  repeated cubes; an empty input panics at the first `max`. */
  method Solve(cubes: seq<Point>) returns (r: Result<(nat, nat)>, m: map<Point, Cell>)
    ensures Exposed(cubes, |cubes|).Err? || cubes == [] <==> r.Err?
    ensures r.Ok? ==> r.value.0 == Exposed(cubes, |cubes|).value
    ensures r.Ok? ==> r.value.1 == |Touching(m, m.Keys, m.Keys)|
    ensures r.Ok? ==> exists pushed :: Filling(BoxOf(cubes), cubes, m, pushed)
  {
    m := map[];
    var exposed := ExposedSides(cubes);
    if exposed.Err? {
      return Err(exposed.failure), m;
    }
    if cubes == [] {
      return Err(Panic), m;
    }
    var b := BoxOf(cubes);
    ghost var pushed;
    m, pushed := Flood(b, cubes);
    var steam := ExposedToSteam(m);
    return Ok((exposed.value, steam)), m;
  }

  /** The box around the cubes. */
  function BoxOf(cubes: seq<Point>): Box
    requires |cubes| > 0
  {
    Box(Largest(seq(|cubes|, i requires 0 <= i < |cubes| => cubes[i].x)),
        Largest(seq(|cubes|, i requires 0 <= i < |cubes| => cubes[i].y)),
        Largest(seq(|cubes|, i requires 0 <= i < |cubes| => cubes[i].z)))
  }
}
