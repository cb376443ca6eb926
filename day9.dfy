/** Day 9: a rope of knots on the integer plane. The head moves one cell at a
 *  time and every knot then chases the one before it until they touch. */
module Day9 {
  import opened Common

  datatype Point = Point(x: int, y: int)

  const Origin := Point(0, 0)

  datatype Direction = Up | Down | Left | Right

  /** `Direction::from_str`. */
  function ParseDirection(s: string): (r: Result<Direction>)
    ensures r.Ok? <==> s in {"U", "D", "L", "R"}
    ensures r.Err? ==> r.failure == Error
  {
    if s == "U" then Ok(Up)
    else if s == "D" then Ok(Down)
    else if s == "L" then Ok(Left)
    else if s == "R" then Ok(Right)
    else Err(Error)
  }

  /** `Point::move`: one cell up, down, left or right. */
  function Move(p: Point, d: Direction): (q: Point)
    ensures Abs(q.x - p.x) + Abs(q.y - p.y) == 1
    ensures d == Up ==> q == Point(p.x, p.y + 1)
    ensures d == Down ==> q == Point(p.x, p.y - 1)
    ensures d == Left ==> q == Point(p.x - 1, p.y)
    ensures d == Right ==> q == Point(p.x + 1, p.y)
  {
    match d
    case Up => p.(y := p.y + 1)
    case Down => p.(y := p.y - 1)
    case Left => p.(x := p.x - 1)
    case Right => p.(x := p.x + 1)
  }

  /** `close_from`: the two points touch, diagonals included. */
  predicate CloseFrom(p: Point, q: Point)
  {
    Abs(p.x - q.x) < 2 && Abs(p.y - q.y) < 2
  }

  /** One coordinate of a chase step: one unit toward the target, if not there. */
  function StepToward(a: int, t: int): (b: int)
    ensures a == t ==> b == a
    ensures a != t ==> Abs(b - a) == 1 && Abs(t - b) == Abs(t - a) - 1
  {
    if a < t then a + 1 else if a > t then a - 1 else a
  }

  /** A coordinate after k chase steps toward t. */
  function Approach(a: int, t: int, k: nat): int
  {
    t - Sign(t - a) * Max(Abs(t - a) - k, 0)
  }

  /** After k steps the remaining gap is the original one less k, and never
   *  changes side. */
  lemma ApproachGap(a: int, t: int, k: nat)
    ensures Abs(t - Approach(a, t, k)) == Max(Abs(t - a) - k, 0)
    ensures Approach(a, t, k) == t || Sign(t - Approach(a, t, k)) == Sign(t - a)
  {
  }

  lemma ApproachStep(a: int, t: int, k: nat)
    ensures Approach(a, t, k + 1) == StepToward(Approach(a, t, k), t)
  {
  }

  /** The number of steps a chase takes. */
  function ChaseSteps(p: Point, t: Point): nat
  {
    Max(Max(Abs(t.x - p.x), Abs(t.y - p.y)) - 1, 0)
  }

  function After(p: Point, t: Point, k: nat): Point
  {
    Point(Approach(p.x, t.x, k), Approach(p.y, t.y, k))
  }

  /** Where `chase` leaves a knot. */
  function Chased(p: Point, t: Point): Point
  {
    After(p, t, ChaseSteps(p, t))
  }

  /** After k steps, no more than the chase's own, the knot touches the target
   *  exactly when k is the chase's number of steps. */
  lemma CloseAfter(p: Point, t: Point, k: nat)
    requires k <= ChaseSteps(p, t)
    ensures CloseFrom(After(p, t, k), t) <==> k == ChaseSteps(p, t)
  {
    ApproachGap(p.x, t.x, k);
    ApproachGap(p.y, t.y, k);
  }

  /** `Point::chase`: step both coordinates toward the target until the knots touch. */
  method Chase(p: Point, t: Point) returns (q: Point)
    ensures q == Chased(p, t)
    ensures CloseFrom(q, t)
  {
    q := p;
    ghost var k: nat := 0;
    CloseAfter(p, t, 0);
    while !CloseFrom(q, t)
      invariant k <= ChaseSteps(p, t)
      invariant q == After(p, t, k)
      invariant CloseFrom(q, t) <==> k == ChaseSteps(p, t)
      decreases ChaseSteps(p, t) - k
    {
      ApproachStep(p.x, t.x, k);
      ApproachStep(p.y, t.y, k);
      if q.x < t.x {
        q := q.(x := q.x + 1);
      } else if q.x > t.x {
        q := q.(x := q.x - 1);
      }
      if q.y < t.y {
        q := q.(y := q.y + 1);
      } else if q.y > t.y {
        q := q.(y := q.y - 1);
      }
      k := k + 1;
      CloseAfter(p, t, k);
    }
  }

  /** A chase ends touching the target; a knot already touching does not move. */
  lemma ChasedTouches(p: Point, t: Point)
    ensures CloseFrom(Chased(p, t), t)
    ensures CloseFrom(p, t) ==> Chased(p, t) == p
  {
    CloseAfter(p, t, ChaseSteps(p, t));
    if CloseFrom(p, t) {
      assert ChaseSteps(p, t) == 0;
    }
  }

  function Between(a: int, lo: int, hi: int): bool
  {
    (lo <= a <= hi) || (hi <= a <= lo)
  }

  /** Each coordinate moves toward the target and never past it. */
  lemma ChasedBetween(p: Point, t: Point)
    ensures Between(Chased(p, t).x, p.x, t.x) && Between(Chased(p, t).y, p.y, t.y)
  {
    ApproachGap(p.x, t.x, ChaseSteps(p, t));
    ApproachGap(p.y, t.y, ChaseSteps(p, t));
  }

  /** The knots after the leader has moved: each chases the (already moved)
   *  knot before it. */
  function Follow(leader: Point, knots: seq<Point>): (r: seq<Point>)
    ensures |r| == |knots|
    decreases |knots|
  {
    if knots == [] then [] else var c := Chased(knots[0], leader); [c] + Follow(c, knots[1..])
  }

  /** The knot that knot i of a rope chases. */
  function Leader(head: Point, knots: seq<Point>, i: nat): Point
    requires i <= |knots|
  {
    if i == 0 then head else knots[i - 1]
  }

  /** Every knot touches the one it chases. */
  predicate Taut(head: Point, knots: seq<Point>)
  {
    forall i :: 0 <= i < |knots| ==> CloseFrom(knots[i], Leader(head, knots, i))
  }

  lemma {:induction false} FollowAt(leader: Point, knots: seq<Point>, i: nat)
    requires i < |knots|
    ensures Follow(leader, knots)[i] == Chased(knots[i], Leader(leader, Follow(leader, knots), i))
    decreases i
  {
    if i > 0 {
      var c := Chased(knots[0], leader);
      FollowAt(c, knots[1..], i - 1);
      if i > 1 {
        assert Follow(leader, knots)[i - 1] == Follow(c, knots[1..])[i - 2];
      }
    }
  }

  /** After the rope follows, every knot touches its predecessor. */
  lemma FollowTouches(leader: Point, knots: seq<Point>)
    ensures Taut(leader, Follow(leader, knots))
  {
    var r := Follow(leader, knots);
    forall i | 0 <= i < |r| ensures CloseFrom(r[i], Leader(leader, r, i)) {
      FollowAt(leader, knots, i);
      ChasedTouches(knots[i], Leader(leader, r, i));
    }
  }

  /** A rope: the head and the array of tail knots, the const generic `N` being
   *  the array's length. */
  class Bridge {
    var head: Point
    const tails: array<Point>

    /** `Bridge::new`: every knot at the origin. */
    constructor(n: nat)
      ensures head == Origin && tails.Length == n && fresh(tails)
      ensures forall i :: 0 <= i < n ==> tails[i] == Origin
    {
      head := Origin;
      tails := new Point[n](_ => Origin);
    }

    /** `move_head`: move the head, then let each knot chase its predecessor. */
    method MoveHead(d: Direction)
      modifies this, tails
      ensures head == Move(old(head), d)
      ensures tails[..] == Follow(head, old(tails[..]))
      ensures Taut(head, tails[..])
    {
      ghost var start := tails[..];
      head := Move(head, d);
      ghost var target := Follow(head, start);
      var t := 0;
      while t < tails.Length
        invariant 0 <= t <= tails.Length
        invariant forall i :: 0 <= i < t ==> tails[i] == target[i]
        invariant forall i :: t <= i < tails.Length ==> tails[i] == start[i]
        invariant head == Move(old(head), d)
      {
        FollowAt(head, start, t);
        var leader := if t == 0 then head else tails[t - 1];
        var c := Chase(tails[t], leader);
        tails[t] := c;
        t := t + 1;
      }
      assert tails[..] == target;
      FollowTouches(head, start);
    }

    /** `tail`: the last knot; the source unwraps it, so the rope has a knot. */
    function Tail(): (p: Point)
      requires tails.Length > 0
      reads tails
      ensures p in tails[..]
    {
      tails[tails.Length - 1]
    }
  }
}
