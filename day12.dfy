/** Day 12: hill climbing. A grid of heights 'a'..'z' is searched breadth
 *  first from the start square, or backwards from the end square, entering
 *  only the neighbours that the climbing rule allows. */
module Day12 {
  import opened Common

  /** A square: unvisited with its height, visited with its height, or the
   *  start and end squares. */
  datatype Terrain = Free(n: nat) | Visited(n: nat) | Start | End

  /** `Into<Terrain> for char`: any character other than a lower-case letter,
   *  'S' or 'E' panics. */
  function ToTerrain(c: char): (r: Result<Terrain>)
    ensures r.Ok? <==> ('a' <= c <= 'z' || c == 'S' || c == 'E')
    ensures r.Err? ==> r.failure == Panic
    ensures r.Ok? ==> Height(r.value) <= 25
  {
    if c == 'S' then Ok(Start)
    else if c == 'E' then Ok(End)
    else if 'a' <= c <= 'z' then Ok(Free(c as int - 'a' as int))
    else Err(Panic)
  }

  /** `Terrain::height`. */
  function Height(t: Terrain): nat
  {
    match t
    case End => 25
    case Start => 0
    case Free(n) => n
    case Visited(n) => n
  }

  /** Letters climb in alphabetical order, one step per letter; the start
   *  square sits at the height of 'a' and the end square at that of 'z'. */
  lemma HeightOrder(c: char, e: char)
    requires 'a' <= c <= 'z' && 'a' <= e <= 'z'
    ensures Height(ToTerrain(e).value) - Height(ToTerrain(c).value) == e as int - c as int
    ensures Height(ToTerrain('S').value) == Height(ToTerrain('a').value)
    ensures Height(ToTerrain('E').value) == Height(ToTerrain('z').value)
  {
  }

  /** One input line, square by square; a bad character panics. */
  function ParseRow(line: string): (r: Result<seq<Terrain>>)
    ensures r.Ok? <==> forall j :: 0 <= j < |line| ==> ToTerrain(line[j]).Ok?
    ensures r.Ok? ==> |r.value| == |line|
    ensures r.Ok? ==> forall j :: 0 <= j < |line| ==> r.value[j] == ToTerrain(line[j]).value
    ensures r.Err? ==> r.failure == Panic
  {
    if line == [] then Ok([])
    else match ToTerrain(line[0])
      case Err(f) => Err(f)
      case Ok(t) =>
        match ParseRow(line[1..])
        case Err(f) => Err(f)
        case Ok(rest) => Ok([t] + rest)
  }

  /** The `field` of `Maze::from_str`: every line parsed. */
  function ParseGrid(lines: seq<string>): (r: Result<seq<seq<Terrain>>>)
    ensures r.Ok? <==> forall i :: 0 <= i < |lines| ==> ParseRow(lines[i]).Ok?
    ensures r.Ok? ==> |r.value| == |lines|
    ensures r.Ok? ==> forall i :: 0 <= i < |lines| ==> r.value[i] == ParseRow(lines[i]).value
    ensures r.Err? ==> r.failure == Panic
  {
    if lines == [] then Ok([])
    else match ParseRow(lines[0])
      case Err(f) => Err(f)
      case Ok(row) =>
        match ParseGrid(lines[1..])
        case Err(f) => Err(f)
        case Ok(rest) => Ok([row] + rest)
  }

  /** Squares are addressed by line `x` and column `y`. */
  datatype Position = Position(x: int, y: int)

  datatype Direction = Up | Down | Left | Right

  predicate Adjacent(p: Position, q: Position)
  {
    Abs(p.x - q.x) + Abs(p.y - q.y) == 1
  }

  /** `Position::move_to`: up and down change the column, left and right
   *  the line. */
  function Neighbor(p: Position, d: Direction): (q: Position)
    ensures Adjacent(p, q)
  {
    match d
    case Up => p.(y := p.y - 1)
    case Down => p.(y := p.y + 1)
    case Left => p.(x := p.x - 1)
    case Right => p.(x := p.x + 1)
  }

  /** Different directions lead to different squares. */
  lemma NeighborInjective(p: Position, d: Direction, e: Direction)
    ensures Neighbor(p, d) == Neighbor(p, e) <==> d == e
  {
  }

  /** The directions `step` tries, in this order. */
  const Order: seq<Direction> := [Up, Left, Right, Down]

  predicate DistinctDirections(dirs: seq<Direction>)
  {
    forall a, b :: 0 <= a < b < |dirs| ==> dirs[a] != dirs[b]
  }

  /** The four directions of `step` reach exactly the adjacent squares. */
  lemma OrderCovers(p: Position, q: Position)
    ensures Adjacent(p, q) <==> exists k :: 0 <= k < |Order| && Neighbor(p, Order[k]) == q
  {
    if Adjacent(p, q) {
      if q.x < p.x { assert Neighbor(p, Order[1]) == q; }
      else if q.x > p.x { assert Neighbor(p, Order[2]) == q; }
      else if q.y < p.y { assert Neighbor(p, Order[0]) == q; }
      else { assert Neighbor(p, Order[3]) == q; }
    }
  }

  /** A non-empty grid whose lines all have the width of the first. */
  predicate Rectangular<T>(g: seq<seq<T>>)
  {
    |g| >= 1 && |g[0]| >= 1 && forall i :: 0 <= i < |g| ==> |g[i]| == |g[0]|
  }

  /** The bounds test of `get_tile` and `get_distance`: the line count and
   *  the width of the first line. */
  predicate Inside<T>(g: seq<seq<T>>, p: Position)
  {
    0 <= p.x < |g| && 0 <= p.y < |g[0]|
  }

  function Tile(g: seq<seq<Terrain>>, p: Position): Terrain
    requires Rectangular(g) && Inside(g, p)
  {
    g[p.x][p.y]
  }

  /** `set_tile` and `set_distance`. */
  function Set<T>(g: seq<seq<T>>, p: Position, v: T): seq<seq<T>>
    requires 0 <= p.x < |g| && 0 <= p.y < |g[p.x]|
  {
    g[p.x := g[p.x][p.y := v]]
  }

  /** `vec![vec![0; width]; height]`. */
  function Zeros(h: nat, w: nat): (z: seq<seq<nat>>)
    ensures |z| == h && forall i :: 0 <= i < h ==> z[i] == seq(w, _ => 0)
  {
    seq(h, _ => seq(w, _ => 0))
  }

  /** Forward, the search enters unvisited squares and the end square;
   *  reversed, unvisited squares and the start square. */
  predicate Enterable(t: Terrain, reverse: bool)
  {
    if reverse then t.Free? || t.Start? else t.Free? || t.End?
  }

  /** Forward, a step climbs at most one; reversed, it descends at most one. */
  predicate Climbable(from: nat, to: nat, reverse: bool)
  {
    if reverse then to + 2 > from else to < from + 2
  }

  /** The square `n` is entered from `pos`. */
  predicate Admits(g: seq<seq<Terrain>>, pos: Position, n: Position, reverse: bool)
    requires Rectangular(g) && Inside(g, pos)
  {
    Inside(g, n) && Enterable(Tile(g, n), reverse)
    && Climbable(Height(Tile(g, pos)), Height(Tile(g, n)), reverse)
  }

  /** The state of a search as values: the squares, their distances and the
   *  queue `to_visit`. */
  datatype Search = Search(field: seq<seq<Terrain>>, distances: seq<seq<nat>>, queue: seq<Position>)

  predicate Shaped(s: Search)
  {
    Rectangular(s.field) && |s.distances| == |s.field|
    && (forall i :: 0 <= i < |s.distances| ==> |s.distances[i]| == |s.field[0]|)
    && (forall k :: 0 <= k < |s.queue| ==> Inside(s.field, s.queue[k]))
  }

  function Distance(s: Search, p: Position): nat
    requires Shaped(s) && Inside(s.field, p)
  {
    s.distances[p.x][p.y]
  }

  /** One direction of `step`: an admitted neighbour gets distance `d + 1`,
   *  joins the back of the queue and is marked visited at its height. */
  function Enter(s: Search, pos: Position, d: nat, dir: Direction, reverse: bool): (r: Search)
    requires Shaped(s) && Inside(s.field, pos)
    ensures Shaped(r) && |r.field| == |s.field| && |r.field[0]| == |s.field[0]|
  {
    var n := Neighbor(pos, dir);
    if Admits(s.field, pos, n, reverse) then
      Search(Set(s.field, n, Visited(Height(Tile(s.field, n)))), Set(s.distances, n, d + 1), s.queue + [n])
    else s
  }

  /** The directions `dirs` tried one after the other. */
  function EnterAll(s: Search, pos: Position, d: nat, dirs: seq<Direction>, reverse: bool): (r: Search)
    requires Shaped(s) && Inside(s.field, pos)
    ensures Shaped(r) && |r.field| == |s.field| && |r.field[0]| == |s.field[0]|
    decreases |dirs|
  {
    if dirs == [] then s
    else Enter(EnterAll(s, pos, d, dirs[..|dirs| - 1], reverse), pos, d, dirs[|dirs| - 1], reverse)
  }

  /** `Maze::step` on a non-empty queue: the front square is popped and its
   *  neighbours are tried in `Order`. */
  function StepSearch(s: Search, reverse: bool): (r: Search)
    requires Shaped(s) && |s.queue| > 0
    ensures Shaped(r) && |r.field| == |s.field| && |r.field[0]| == |s.field[0]|
  {
    var pos := s.queue[0];
    EnterAll(s.(queue := s.queue[1..]), pos, Distance(s, pos), Order, reverse)
  }

  /** The neighbours that `dirs` lead to and the rule admits, judged on the
   *  grid `g`, in order. */
  function Admitted(g: seq<seq<Terrain>>, pos: Position, dirs: seq<Direction>, reverse: bool): seq<Position>
    requires Rectangular(g) && Inside(g, pos)
    decreases |dirs|
  {
    if dirs == [] then []
    else
      var n := Neighbor(pos, dirs[|dirs| - 1]);
      Admitted(g, pos, dirs[..|dirs| - 1], reverse) + (if Admits(g, pos, n, reverse) then [n] else [])
  }

  lemma {:induction false} AdmittedLength(g: seq<seq<Terrain>>, pos: Position, dirs: seq<Direction>, reverse: bool)
    requires Rectangular(g) && Inside(g, pos)
    ensures |Admitted(g, pos, dirs, reverse)| <= |dirs|
    decreases |dirs|
  {
    if dirs != [] {
      AdmittedLength(g, pos, dirs[..|dirs| - 1], reverse);
    }
  }

  /** Every admitted square is an admitted neighbour along `dirs`. */
  lemma {:induction false} AdmittedSound(g: seq<seq<Terrain>>, pos: Position, dirs: seq<Direction>, reverse: bool, p: Position)
    requires Rectangular(g) && Inside(g, pos)
    requires p in Admitted(g, pos, dirs, reverse)
    ensures Admits(g, pos, p, reverse)
    ensures exists k :: 0 <= k < |dirs| && Neighbor(pos, dirs[k]) == p
    decreases |dirs|
  {
    var init := dirs[..|dirs| - 1];
    if p in Admitted(g, pos, init, reverse) {
      AdmittedSound(g, pos, init, reverse, p);
      var k :| 0 <= k < |init| && Neighbor(pos, init[k]) == p;
      assert dirs[k] == init[k];
    } else {
      assert Neighbor(pos, dirs[|dirs| - 1]) == p;
    }
  }

  /** Every admitted neighbour along `dirs` is listed. */
  lemma {:induction false} AdmittedComplete(g: seq<seq<Terrain>>, pos: Position, dirs: seq<Direction>, reverse: bool, k: nat)
    requires Rectangular(g) && Inside(g, pos)
    requires k < |dirs| && Admits(g, pos, Neighbor(pos, dirs[k]), reverse)
    ensures Neighbor(pos, dirs[k]) in Admitted(g, pos, dirs, reverse)
    decreases |dirs|
  {
    var init := dirs[..|dirs| - 1];
    if k < |init| {
      assert init[k] == dirs[k];
      AdmittedComplete(g, pos, init, reverse, k);
    }
  }

  predicate NoRepeats(q: seq<Position>)
  {
    forall x, y :: 0 <= x < y < |q| ==> q[x] != q[y]
  }

  /** With distinct directions no square is listed twice. */
  lemma {:induction false} AdmittedDistinct(g: seq<seq<Terrain>>, pos: Position, dirs: seq<Direction>, reverse: bool)
    requires Rectangular(g) && Inside(g, pos) && DistinctDirections(dirs)
    ensures NoRepeats(Admitted(g, pos, dirs, reverse))
    decreases |dirs|
  {
    if dirs != [] {
      var init := dirs[..|dirs| - 1];
      var last := dirs[|dirs| - 1];
      assert DistinctDirections(init);
      AdmittedDistinct(g, pos, init, reverse);
      var n := Neighbor(pos, last);
      if n in Admitted(g, pos, init, reverse) {
        AdmittedSound(g, pos, init, reverse, n);
        var k :| 0 <= k < |init| && Neighbor(pos, init[k]) == n;
        NeighborInjective(pos, init[k], last);
        assert false;
      }
      var a0 := Admitted(g, pos, init, reverse);
      var a := Admitted(g, pos, dirs, reverse);
      assert a == a0 + (if Admits(g, pos, n, reverse) then [n] else []);
      assert n !in a0;
      forall x, y | 0 <= x < y < |a|
        ensures a[x] != a[y]
      {
        if y == |a0| {
          assert a[y] == n;
          assert a[x] == a0[x] && a0[x] in a0;
        } else {
          assert a[x] == a0[x] && a[y] == a0[y];
        }
      }
    }
  }

  /** Neither the popped square nor the neighbour of the last direction is
   *  among the squares the earlier, distinct directions admitted. */
  lemma NotAdmittedBefore(g: seq<seq<Terrain>>, pos: Position, dirs: seq<Direction>, reverse: bool)
    requires Rectangular(g) && Inside(g, pos) && DistinctDirections(dirs) && dirs != []
    ensures Neighbor(pos, dirs[|dirs| - 1]) !in Admitted(g, pos, dirs[..|dirs| - 1], reverse)
    ensures pos !in Admitted(g, pos, dirs[..|dirs| - 1], reverse)
  {
    var init := dirs[..|dirs| - 1];
    var last := dirs[|dirs| - 1];
    var n := Neighbor(pos, last);
    if n in Admitted(g, pos, init, reverse) {
      AdmittedSound(g, pos, init, reverse, n);
      assert false;
    }
    if pos in Admitted(g, pos, init, reverse) {
      AdmittedSound(g, pos, init, reverse, pos);
      assert false;
    }
  }

  /** One direction changes only the square it leads to, and only when the
   *  rule admits it. */
  lemma EnterCell(s: Search, pos: Position, d: nat, dir: Direction, reverse: bool, p: Position)
    requires Shaped(s) && Inside(s.field, pos) && Inside(s.field, p)
    ensures var entered := p == Neighbor(pos, dir) && Admits(s.field, pos, p, reverse);
      && Enter(s, pos, d, dir, reverse).field[p.x][p.y] ==
        (if entered then Visited(Height(Tile(s.field, p))) else Tile(s.field, p))
      && Enter(s, pos, d, dir, reverse).distances[p.x][p.y] == (if entered then d + 1 else Distance(s, p))
  {
  }

  /** Trying distinct directions one after the other changes a square as if
   *  every admitted neighbour, judged on the grid before, were entered at
   *  once. */
  lemma {:induction false} EnterAllCell(s: Search, pos: Position, d: nat, dirs: seq<Direction>, reverse: bool, p: Position)
    requires Shaped(s) && Inside(s.field, pos) && DistinctDirections(dirs) && Inside(s.field, p)
    ensures EnterAll(s, pos, d, dirs, reverse).field[p.x][p.y] ==
      (if p in Admitted(s.field, pos, dirs, reverse) then Visited(Height(Tile(s.field, p))) else Tile(s.field, p))
    ensures EnterAll(s, pos, d, dirs, reverse).distances[p.x][p.y] ==
      (if p in Admitted(s.field, pos, dirs, reverse) then d + 1 else Distance(s, p))
    decreases |dirs|, 1
  {
    if dirs != [] {
      var init := dirs[..|dirs| - 1];
      var last := dirs[|dirs| - 1];
      var n := Neighbor(pos, last);
      assert DistinctDirections(init);
      EnterAllCell(s, pos, d, init, reverse, p);
      AdmitsAfter(s, pos, d, dirs, reverse);
      EnterCell(EnterAll(s, pos, d, init, reverse), pos, d, last, reverse, p);
      assert p in Admitted(s.field, pos, dirs, reverse) <==>
        p in Admitted(s.field, pos, init, reverse) || (p == n && Admits(s.field, pos, n, reverse));
    }
  }

  /** The earlier directions leave the popped square and the neighbour of
   *  the last direction as they were, so the rule judges that neighbour as
   *  it would have at the start. */
  lemma {:induction false} AdmitsAfter(s: Search, pos: Position, d: nat, dirs: seq<Direction>, reverse: bool)
    requires Shaped(s) && Inside(s.field, pos) && DistinctDirections(dirs) && dirs != []
    ensures var n := Neighbor(pos, dirs[|dirs| - 1]);
      Admits(EnterAll(s, pos, d, dirs[..|dirs| - 1], reverse).field, pos, n, reverse) == Admits(s.field, pos, n, reverse)
    decreases |dirs|, 0
  {
    var init := dirs[..|dirs| - 1];
    var n := Neighbor(pos, dirs[|dirs| - 1]);
    assert DistinctDirections(init);
    NotAdmittedBefore(s.field, pos, dirs, reverse);
    EnterAllCell(s, pos, d, init, reverse, pos);
    if Inside(s.field, n) {
      EnterAllCell(s, pos, d, init, reverse, n);
    }
  }

  /** ... and appends the admitted neighbours to the queue in order. */
  lemma {:induction false} EnterAllQueue(s: Search, pos: Position, d: nat, dirs: seq<Direction>, reverse: bool)
    requires Shaped(s) && Inside(s.field, pos) && DistinctDirections(dirs)
    ensures EnterAll(s, pos, d, dirs, reverse).queue == s.queue + Admitted(s.field, pos, dirs, reverse)
    decreases |dirs|
  {
    if dirs != [] {
      var init := dirs[..|dirs| - 1];
      var n := Neighbor(pos, dirs[|dirs| - 1]);
      assert DistinctDirections(init);
      EnterAllQueue(s, pos, d, init, reverse);
      AdmitsAfter(s, pos, d, dirs, reverse);
    }
  }

  /** Trying one more direction of `dirs` enters one more neighbour. */
  lemma EnterAllNext(s: Search, pos: Position, d: nat, dirs: seq<Direction>, i: nat, reverse: bool)
    requires Shaped(s) && Inside(s.field, pos) && i < |dirs|
    ensures EnterAll(s, pos, d, dirs[..i + 1], reverse) == Enter(EnterAll(s, pos, d, dirs[..i], reverse), pos, d, dirs[i], reverse)
  {
    assert dirs[..i + 1][..i] == dirs[..i];
  }

  /** The squares `step` admits are exactly the adjacent ones the rule
   *  admits, each listed once. */
  lemma AdmittedByOrder(g: seq<seq<Terrain>>, pos: Position, reverse: bool)
    requires Rectangular(g) && Inside(g, pos)
    ensures |Admitted(g, pos, Order, reverse)| <= 4
    ensures forall p :: p in Admitted(g, pos, Order, reverse) <==> Adjacent(pos, p) && Admits(g, pos, p, reverse)
    ensures NoRepeats(Admitted(g, pos, Order, reverse))
  {
    AdmittedLength(g, pos, Order, reverse);
    AdmittedDistinct(g, pos, Order, reverse);
    forall p
      ensures p in Admitted(g, pos, Order, reverse) <==> Adjacent(pos, p) && Admits(g, pos, p, reverse)
    {
      OrderCovers(pos, p);
      if p in Admitted(g, pos, Order, reverse) {
        AdmittedSound(g, pos, Order, reverse, p);
      } else if Adjacent(pos, p) && Admits(g, pos, p, reverse) {
        var k :| 0 <= k < |Order| && Neighbor(pos, Order[k]) == p;
        AdmittedComplete(g, pos, Order, reverse, k);
      }
    }
  }

  /** One square after `step`: an adjacent square the rule admits becomes
   *  visited at its height with the popped square's distance plus one; any
   *  other square keeps its terrain and distance. */
  lemma StepCell(s: Search, reverse: bool, p: Position)
    requires Shaped(s) && |s.queue| > 0 && Inside(s.field, p)
    ensures var pos := s.queue[0];
      var entered := Adjacent(pos, p) && Admits(s.field, pos, p, reverse);
      StepSearch(s, reverse).field[p.x][p.y] == (if entered then Visited(Height(Tile(s.field, p))) else Tile(s.field, p))
      && StepSearch(s, reverse).distances[p.x][p.y] == (if entered then Distance(s, pos) + 1 else Distance(s, p))
  {
    var pos := s.queue[0];
    EnterAllCell(s.(queue := s.queue[1..]), pos, Distance(s, pos), Order, reverse, p);
    AdmittedByOrder(s.field, pos, reverse);
  }

  /** `step` on a non-empty queue pops the front square `pos`; every square
   *  adjacent to it that the rule admits becomes visited at its height with
   *  the distance of `pos` plus one and joins the back of the queue; no other
   *  square changes. */
  lemma StepMeaning(s: Search, reverse: bool)
    requires Shaped(s) && |s.queue| > 0
    ensures var pos := s.queue[0];
      StepSearch(s, reverse).queue == s.queue[1..] + Admitted(s.field, pos, Order, reverse)
    ensures var pos := s.queue[0];
      forall i, j :: 0 <= i < |s.field| && 0 <= j < |s.field[0]| ==>
        StepSearch(s, reverse).field[i][j] ==
          (if Adjacent(pos, Position(i, j)) && Admits(s.field, pos, Position(i, j), reverse)
           then Visited(Height(s.field[i][j])) else s.field[i][j])
    ensures var pos := s.queue[0];
      forall i, j :: 0 <= i < |s.field| && 0 <= j < |s.field[0]| ==>
        StepSearch(s, reverse).distances[i][j] ==
          (if Adjacent(pos, Position(i, j)) && Admits(s.field, pos, Position(i, j), reverse)
           then s.distances[pos.x][pos.y] + 1 else s.distances[i][j])
  {
    var pos := s.queue[0];
    EnterAllQueue(s.(queue := s.queue[1..]), pos, Distance(s, pos), Order, reverse);
    forall i, j | 0 <= i < |s.field| && 0 <= j < |s.field[0]|
      ensures StepSearch(s, reverse).field[i][j] ==
          (if Adjacent(pos, Position(i, j)) && Admits(s.field, pos, Position(i, j), reverse)
           then Visited(Height(s.field[i][j])) else s.field[i][j])
      ensures StepSearch(s, reverse).distances[i][j] ==
          (if Adjacent(pos, Position(i, j)) && Admits(s.field, pos, Position(i, j), reverse)
           then s.distances[pos.x][pos.y] + 1 else s.distances[i][j])
    {
      StepCell(s, reverse, Position(i, j));
    }
  }

  /** No square is queued twice, and every queued square is one the rule no
   *  longer enters. */
  predicate Frontier(s: Search, reverse: bool)
  {
    Shaped(s)
    && NoRepeats(s.queue)
    && (forall k :: 0 <= k < |s.queue| ==> !Enterable(Tile(s.field, s.queue[k]), reverse))
  }

  /** The distances along the queue never decrease and differ by at most one,
   *  as in a breadth-first search. */
  predicate Layered(s: Search)
    requires Shaped(s)
  {
    forall a, b :: 0 <= a <= b < |s.queue| ==>
      Distance(s, s.queue[a]) <= Distance(s, s.queue[b]) <= Distance(s, s.queue[a]) + 1
  }

  /** What `step` does to the queued squares: those left behind the popped
   *  one keep their terrain and distance, the ones it adds are no longer
   *  enterable and carry the popped square's distance plus one. */
  lemma StepQueue(s: Search, reverse: bool)
    requires Frontier(s, reverse) && |s.queue| > 0
    ensures var r := StepSearch(s, reverse);
      var a := Admitted(s.field, s.queue[0], Order, reverse);
      r.queue == s.queue[1..] + a
      && NoRepeats(a)
      && (forall k :: 1 <= k < |s.queue| ==>
            s.queue[k] !in a && Tile(r.field, s.queue[k]) == Tile(s.field, s.queue[k])
            && Distance(r, s.queue[k]) == Distance(s, s.queue[k]))
      && (forall k :: 0 <= k < |a| ==>
            Inside(s.field, a[k]) && !Enterable(Tile(r.field, a[k]), reverse) && Distance(r, a[k]) == Distance(s, s.queue[0]) + 1)
  {
    var pos := s.queue[0];
    var r := StepSearch(s, reverse);
    var a := Admitted(s.field, pos, Order, reverse);
    EnterAllQueue(s.(queue := s.queue[1..]), pos, Distance(s, pos), Order, reverse);
    AdmittedByOrder(s.field, pos, reverse);
    forall k | 1 <= k < |s.queue|
      ensures s.queue[k] !in a
      ensures Tile(r.field, s.queue[k]) == Tile(s.field, s.queue[k])
      ensures Distance(r, s.queue[k]) == Distance(s, s.queue[k])
    {
      StepCell(s, reverse, s.queue[k]);
    }
    forall k | 0 <= k < |a|
      ensures Inside(s.field, a[k])
      ensures !Enterable(Tile(r.field, a[k]), reverse)
      ensures Distance(r, a[k]) == Distance(s, pos) + 1
    {
      assert a[k] in a;
      StepCell(s, reverse, a[k]);
    }
  }

  /** `step` keeps the queue free of repeats and of enterable squares. */
  lemma StepKeepsFrontier(s: Search, reverse: bool)
    requires Frontier(s, reverse) && |s.queue| > 0
    ensures Frontier(StepSearch(s, reverse), reverse)
  {
    var r := StepSearch(s, reverse);
    var a := Admitted(s.field, s.queue[0], Order, reverse);
    var t := |s.queue| - 1;
    StepQueue(s, reverse);
    forall x, y | 0 <= x < y < |r.queue|
      ensures r.queue[x] != r.queue[y]
    {
      if y < t {
        assert r.queue[x] == s.queue[x + 1] && r.queue[y] == s.queue[y + 1];
      } else if x < t {
        assert r.queue[x] == s.queue[x + 1] && r.queue[y] == a[y - t];
      } else {
        assert r.queue[x] == a[x - t] && r.queue[y] == a[y - t];
      }
    }
    forall k | 0 <= k < |r.queue|
      ensures !Enterable(Tile(r.field, r.queue[k]), reverse)
    {
      if k < t {
        assert r.queue[k] == s.queue[k + 1];
      } else {
        assert r.queue[k] == a[k - t];
      }
    }
  }

  /** `step` keeps the distances along the queue layered. */
  lemma StepKeepsLayered(s: Search, reverse: bool)
    requires Frontier(s, reverse) && Layered(s) && |s.queue| > 0
    ensures Layered(StepSearch(s, reverse))
  {
    var r := StepSearch(s, reverse);
    var a := Admitted(s.field, s.queue[0], Order, reverse);
    var t := |s.queue| - 1;
    StepQueue(s, reverse);
    forall x, y | 0 <= x <= y < |r.queue|
      ensures Distance(r, r.queue[x]) <= Distance(r, r.queue[y]) <= Distance(r, r.queue[x]) + 1
    {
      if y < t {
        assert r.queue[x] == s.queue[x + 1] && r.queue[y] == s.queue[y + 1];
      } else if x < t {
        assert r.queue[x] == s.queue[x + 1] && r.queue[y] == a[y - t];
      } else {
        assert r.queue[x] == a[x - t] && r.queue[y] == a[y - t];
      }
    }
  }

  /** How many squares the rule could still enter. */
  function CountRow(row: seq<Terrain>, reverse: bool): nat
  {
    if row == [] then 0 else (if Enterable(row[0], reverse) then 1 else 0) + CountRow(row[1..], reverse)
  }

  function Count(g: seq<seq<Terrain>>, reverse: bool): nat
  {
    if g == [] then 0 else CountRow(g[0], reverse) + Count(g[1..], reverse)
  }

  lemma {:induction false} CountRowUpdate(row: seq<Terrain>, j: nat, v: Terrain, reverse: bool)
    requires j < |row|
    ensures CountRow(row[j := v], reverse) ==
      CountRow(row, reverse) - (if Enterable(row[j], reverse) then 1 else 0) + (if Enterable(v, reverse) then 1 else 0)
    decreases |row|
  {
    if j == 0 {
      assert row[j := v][1..] == row[1..];
    } else {
      assert row[j := v][1..] == row[1..][j - 1 := v];
      CountRowUpdate(row[1..], j - 1, v, reverse);
    }
  }

  lemma {:induction false} CountUpdate(g: seq<seq<Terrain>>, p: Position, v: Terrain, reverse: bool)
    requires 0 <= p.x < |g| && 0 <= p.y < |g[p.x]|
    ensures Count(Set(g, p, v), reverse) ==
      Count(g, reverse) - (if Enterable(g[p.x][p.y], reverse) then 1 else 0) + (if Enterable(v, reverse) then 1 else 0)
    decreases |g|
  {
    if p.x == 0 {
      assert Set(g, p, v)[1..] == g[1..];
      CountRowUpdate(g[0], p.y, v, reverse);
    } else {
      assert Set(g, p, v)[1..] == Set(g[1..], Position(p.x - 1, p.y), v);
      CountUpdate(g[1..], Position(p.x - 1, p.y), v, reverse);
    }
  }

  /** The squares still enterable plus the squares still queued. */
  function Measure(s: Search, reverse: bool): nat
  {
    Count(s.field, reverse) + |s.queue|
  }

  lemma {:induction false} EnterAllMeasure(s: Search, pos: Position, d: nat, dirs: seq<Direction>, reverse: bool)
    requires Shaped(s) && Inside(s.field, pos)
    ensures Measure(EnterAll(s, pos, d, dirs, reverse), reverse) == Measure(s, reverse)
    decreases |dirs|
  {
    if dirs != [] {
      var mid := EnterAll(s, pos, d, dirs[..|dirs| - 1], reverse);
      EnterAllMeasure(s, pos, d, dirs[..|dirs| - 1], reverse);
      var n := Neighbor(pos, dirs[|dirs| - 1]);
      if Admits(mid.field, pos, n, reverse) {
        CountUpdate(mid.field, n, Visited(Height(Tile(mid.field, n))), reverse);
      }
    }
  }

  /** Every `step` on a non-empty queue uses up one unit of the measure: a
   *  square is popped, and each square queued is one no longer enterable. */
  lemma StepMeasure(s: Search, reverse: bool)
    requires Shaped(s) && |s.queue| > 0
    ensures Measure(StepSearch(s, reverse), reverse) + 1 == Measure(s, reverse)
  {
    var pos := s.queue[0];
    EnterAllMeasure(s.(queue := s.queue[1..]), pos, Distance(s, pos), Order, reverse);
  }

  /** `while !maze.step() {}`: the search run until the queue is empty. */
  function Settle(s: Search, reverse: bool): (r: Search)
    requires Shaped(s)
    ensures Shaped(r) && |r.queue| == 0
    ensures |r.field| == |s.field| && |r.field[0]| == |s.field[0]|
    decreases Measure(s, reverse)
  {
    if |s.queue| == 0 then s
    else
      StepMeasure(s, reverse);
      Settle(StepSearch(s, reverse), reverse)
  }

  /** The search after `k` calls of `step`, or earlier once the queue is empty. */
  ghost function Iterate(s: Search, reverse: bool, k: nat): (r: Search)
    requires Shaped(s)
    ensures Shaped(r)
    decreases k
  {
    if k == 0 || |s.queue| == 0 then s else Iterate(StepSearch(s, reverse), reverse, k - 1)
  }

  /** The queue invariants hold in every intermediate state of the search,
   *  after any number of steps. */
  lemma {:induction false} SettleKeeps(s: Search, reverse: bool, k: nat)
    requires Frontier(s, reverse) && Layered(s)
    ensures Frontier(Iterate(s, reverse, k), reverse) && Layered(Iterate(s, reverse, k))
    decreases k
  {
    if k > 0 && |s.queue| > 0 {
      StepKeepsFrontier(s, reverse);
      StepKeepsLayered(s, reverse);
      SettleKeeps(StepSearch(s, reverse), reverse, k - 1);
    }
  }

  /** The settled search is one of the intermediate states: the one after
   *  `k` steps, where `k` is the number of squares the search pops. */
  lemma {:induction false} SettleReached(s: Search, reverse: bool) returns (k: nat)
    requires Shaped(s)
    ensures Iterate(s, reverse, k) == Settle(s, reverse)
    ensures forall j :: 0 <= j < k ==> |Iterate(s, reverse, j).queue| > 0
    decreases Measure(s, reverse)
  {
    if |s.queue| == 0 {
      k := 0;
    } else {
      StepMeasure(s, reverse);
      var n := SettleReached(StepSearch(s, reverse), reverse);
      k := n + 1;
      IterateSucc(s, reverse, n);
      SettleSucc(s, reverse);
      QueuedBefore(s, reverse, n);
    }
  }

  /** If the queue stays non-empty for the first `n` steps after the first
   *  one, it stays non-empty for the first `n + 1` steps. */
  lemma QueuedBefore(s: Search, reverse: bool, n: nat)
    requires Shaped(s) && |s.queue| > 0
    requires forall j :: 0 <= j < n ==> |Iterate(StepSearch(s, reverse), reverse, j).queue| > 0
    ensures forall j :: 0 <= j < n + 1 ==> |Iterate(s, reverse, j).queue| > 0
  {
    forall j | 0 <= j < n + 1
      ensures |Iterate(s, reverse, j).queue| > 0
    {
      if j > 0 {
        IterateSucc(s, reverse, j - 1);
      }
    }
  }

  /** Settling a search with a non-empty queue settles its first step. */
  lemma SettleSucc(s: Search, reverse: bool)
    requires Shaped(s) && |s.queue| > 0
    ensures Settle(s, reverse) == Settle(StepSearch(s, reverse), reverse)
  {
  }

  /** One more step from a search with a non-empty queue is the step first. */
  lemma IterateSucc(s: Search, reverse: bool, j: nat)
    requires Shaped(s) && |s.queue| > 0
    ensures Iterate(s, reverse, j + 1) == Iterate(StepSearch(s, reverse), reverse, j)
  {
  }

  /** The last square of `row[..n]` holding `t`, if any. */
  function LastInRow(row: seq<Terrain>, t: Terrain, n: nat): Option<nat>
    requires n <= |row|
  {
    if n == 0 then None
    else if row[n - 1] == t then Some(n - 1)
    else LastInRow(row, t, n - 1)
  }

  function Found(o: Option<nat>, x: int, otherwise: Position): Position
  {
    match o
    case Some(y) => Position(x, y)
    case None => otherwise
  }

  /** The square the scan of `from_str` keeps for `t` over the first `n`
   *  lines: the last one in reading order, or (0, 0) if there is none. */
  function LastInGrid(g: seq<seq<Terrain>>, t: Terrain, n: nat): Position
    requires n <= |g|
  {
    if n == 0 then Position(0, 0)
    else Found(LastInRow(g[n - 1], t, |g[n - 1]|), n - 1, LastInGrid(g, t, n - 1))
  }

  lemma {:induction false} LastInRowMeaning(row: seq<Terrain>, t: Terrain, n: nat)
    requires n <= |row|
    ensures LastInRow(row, t, n).Some? ==>
      (var y := LastInRow(row, t, n).value;
       y < n && row[y] == t && forall j :: y < j < n ==> row[j] != t)
    ensures LastInRow(row, t, n).None? ==> forall j :: 0 <= j < n ==> row[j] != t
  {
    if n > 0 && row[n - 1] != t {
      LastInRowMeaning(row, t, n - 1);
    }
  }

  /** Reading order: line first, then column. */
  predicate NotAfter(i: int, j: int, p: Position)
  {
    i < p.x || (i == p.x && j <= p.y)
  }

  /** When `t` occurs among the first `n` lines, `LastInGrid` is its last
   *  occurrence in reading order; otherwise it is (0, 0). */
  lemma {:induction false} LastInGridMeaning(g: seq<seq<Terrain>>, t: Terrain, n: nat)
    requires n <= |g|
    ensures var p := LastInGrid(g, t, n);
      (exists i, j :: 0 <= i < n && 0 <= j < |g[i]| && g[i][j] == t) ==>
        (0 <= p.x < n && 0 <= p.y < |g[p.x]| && g[p.x][p.y] == t
         && forall i, j :: 0 <= i < n && 0 <= j < |g[i]| && g[i][j] == t ==> NotAfter(i, j, p))
    ensures (forall i, j :: 0 <= i < n && 0 <= j < |g[i]| ==> g[i][j] != t) ==>
      LastInGrid(g, t, n) == Position(0, 0)
  {
    if n > 0 {
      LastInGridMeaning(g, t, n - 1);
      LastInRowMeaning(g[n - 1], t, |g[n - 1]|);
    }
  }

  /** The inner loop of the scan in `from_str`, over line `x`. */
  method LocateInRow(row: seq<Terrain>, x: int, start: Position, end: Position)
    returns (startAt: Position, endAt: Position)
    ensures startAt == Found(LastInRow(row, Start, |row|), x, start)
    ensures endAt == Found(LastInRow(row, End, |row|), x, end)
  {
    startAt, endAt := start, end;
    var y := 0;
    while y < |row|
      invariant 0 <= y <= |row|
      invariant startAt == Found(LastInRow(row, Start, y), x, start)
      invariant endAt == Found(LastInRow(row, End, y), x, end)
    {
      match row[y] {
        case Start => startAt := Position(x, y);
        case End => endAt := Position(x, y);
        case _ =>
      }
      y := y + 1;
    }
  }

  /** The scan of `from_str` for the start and end squares. */
  method Locate(field: seq<seq<Terrain>>) returns (start: Position, end: Position)
    ensures start == LastInGrid(field, Start, |field|)
    ensures end == LastInGrid(field, End, |field|)
  {
    start, end := Position(0, 0), Position(0, 0);
    var x := 0;
    while x < |field|
      invariant 0 <= x <= |field|
      invariant start == LastInGrid(field, Start, x)
      invariant end == LastInGrid(field, End, x)
    {
      start, end := LocateInRow(field[x], x, start, end);
      x := x + 1;
    }
  }

  /** `Maze`: the squares, the distances, the queue, the end square, the
   *  cursor and the direction of the search. */
  class Maze {
    var field: seq<seq<Terrain>>
    var distances: seq<seq<nat>>
    var toVisit: seq<Position>
    var end: Position
    var cursor: Position
    var reverse: bool

    function State(): Search
      reads this
    {
      Search(field, distances, toVisit)
    }

    ghost predicate Valid()
      reads this
    {
      Shaped(State()) && Inside(field, end)
    }

    /** `Maze::from_str` on a parsed, rectangular grid. */
    constructor(grid: seq<seq<Terrain>>)
      requires Rectangular(grid)
      ensures Valid() && field == grid && distances == Zeros(|grid|, |grid[0]|) && !reverse
      ensures toVisit == [LastInGrid(grid, Start, |grid|)] && cursor == toVisit[0]
      ensures end == LastInGrid(grid, End, |grid|)
    {
      var start, goal := Locate(grid);
      LastInGridMeaning(grid, Start, |grid|);
      LastInGridMeaning(grid, End, |grid|);
      field := grid;
      distances := Zeros(|grid|, |grid[0]|);
      toVisit := [start];
      end := goal;
      cursor := start;
      reverse := false;
    }

    /** `get_tile`. */
    function GetTile(p: Position): (r: Option<Terrain>)
      reads this
      requires Valid()
      ensures r.None? <==> !Inside(field, p)
      ensures r.Some? ==> r.value == field[p.x][p.y]
    {
      if p.x < 0 || p.x >= |field| || p.y < 0 || p.y >= |field[0]| then None
      else Some(field[p.x][p.y])
    }

    /** `get_distance`. */
    function GetDistance(p: Position): (r: Option<nat>)
      reads this
      requires Valid()
      ensures r.None? <==> !Inside(field, p)
      ensures r.Some? ==> r.value == distances[p.x][p.y]
    {
      if p.x < 0 || p.x >= |field| || p.y < 0 || p.y >= |field[0]| then None
      else Some(distances[p.x][p.y])
    }

    /** The body of the direction loop of `step`: the neighbour of the
     *  popped square `position` is entered when the rule admits it. */
    method Visit(position: Position, direction: Direction, currentDistance: nat)
      requires Valid() && Inside(field, position)
      modifies this
      ensures Valid() && reverse == old(reverse) && end == old(end) && cursor == position
      ensures State() == Enter(old(State()), position, currentDistance, direction, reverse)
    {
      ghost var before := State();
      cursor := position;
      var tile := GetTile(Neighbor(cursor, direction));
      if tile.Some? {
        var here := GetTile(cursor).value;
        if Enterable(tile.value, reverse) && Climbable(Height(here), Height(tile.value), reverse) {
          var neighbor := Neighbor(position, direction);
          assert Admits(field, position, neighbor, reverse);
          distances := Set(distances, neighbor, currentDistance + 1);
          toVisit := toVisit + [neighbor];
          field := Set(field, neighbor, Visited(Height(tile.value)));
        }
      }
      assert State() == Enter(before, position, currentDistance, direction, reverse);
    }

    /** `Maze::step`: reports an empty queue, or expands its front square. */
    method Step() returns (done: bool)
      requires Valid()
      modifies this
      ensures Valid() && reverse == old(reverse) && end == old(end)
      ensures done <==> |old(toVisit)| == 0
      ensures done ==> State() == old(State()) && cursor == old(cursor)
      ensures !done ==> State() == StepSearch(old(State()), reverse) && cursor == old(toVisit[0])
    {
      if |toVisit| == 0 {
        return true;
      }
      var position := toVisit[0];
      toVisit := toVisit[1..];
      var currentDistance := GetDistance(position).value;
      ghost var popped := State();
      var i := 0;
      while i < |Order|
        invariant 0 <= i <= |Order|
        invariant Shaped(popped) && Inside(popped.field, position)
        invariant State() == EnterAll(popped, position, currentDistance, Order[..i], reverse)
        invariant Valid() && reverse == old(reverse) && end == old(end)
        invariant i > 0 ==> cursor == position
      {
        EnterAllNext(popped, position, currentDistance, Order, i, reverse);
        Visit(position, Order[i], currentDistance);
        i := i + 1;
      }
      assert Order[..|Order|] == Order;
      return false;
    }

    /** `while !maze.step() {}`: steps until the queue is empty. */
    method Run()
      requires Valid()
      modifies this
      ensures Valid() && reverse == old(reverse) && end == old(end)
      ensures State() == Settle(old(State()), reverse)
    {
      var done := false;
      while !done
        invariant Valid() && reverse == old(reverse) && end == old(end)
        invariant Settle(State(), reverse) == Settle(old(State()), reverse)
        invariant done ==> |toVisit| == 0
        decreases Measure(State(), reverse) + (if done then 0 else 1)
      {
        ghost var before := State();
        done := Step();
        if !done {
          StepMeasure(before, reverse);
        }
      }
    }

    /** The second search of `main`: the last queued square is dropped, the
     *  end square is queued instead and the climbing rule is reversed. */
    method StartFromEnd()
      requires Valid()
      modifies this
      ensures Valid() && reverse && end == old(end) && field == old(field) && distances == old(distances)
      ensures toVisit == (if |old(toVisit)| == 0 then [] else old(toVisit[..|toVisit| - 1])) + [end]
    {
      if |toVisit| > 0 {
        toVisit := toVisit[..|toVisit| - 1];
      }
      toVisit := toVisit + [end];
      reverse := true;
    }
  }

  /** A freshly built maze, searched forward from its start square or, after
   *  `StartFromEnd`, backward from its end square, satisfies both queue
   *  invariants whenever that square is present in the grid. */
  lemma InitialFrontier(grid: seq<seq<Terrain>>, reverse: bool)
    requires Rectangular(grid)
    requires exists i, j :: 0 <= i < |grid| && 0 <= j < |grid[i]| && grid[i][j] == (if reverse then End else Start)
    ensures var s := Search(grid, Zeros(|grid|, |grid[0]|), [LastInGrid(grid, if reverse then End else Start, |grid|)]);
      Frontier(s, reverse) && Layered(s)
  {
    LastInGridMeaning(grid, if reverse then End else Start, |grid|);
  }
}
