/** Day 8: a rectangular forest of tree heights. Trees on the border are
 *  visible; an interior tree is visible when it is taller than every tree
 *  between it and some edge, and its scenic score multiplies its four viewing
 *  distances. Rows are indexed by x, columns by y. */
module Day8 {
  import opened Common

  predicate Rectangular(forest: seq<seq<nat>>)
  {
    |forest| >= 1 && |forest[0]| >= 1 && forall i :: 0 <= i < |forest| ==> |forest[i]| == |forest[0]|
  }

  /** Column y, top to bottom. */
  function Column(forest: seq<seq<nat>>, y: nat): (c: seq<nat>)
    requires Rectangular(forest) && y < |forest[0]|
    ensures |c| == |forest| && forall i :: 0 <= i < |forest| ==> c[i] == forest[i][y]
  {
    seq(|forest|, i requires 0 <= i < |forest| => forest[i][y])
  }

  /** The trees left of, right of, above and below (x, y), in grid order: the
   *  nearest tree is last on the left and top, first on the right and bottom. */
  function LeftOf(forest: seq<seq<nat>>, x: nat, y: nat): seq<nat>
    requires Rectangular(forest) && x < |forest| && y < |forest[0]|
  {
    forest[x][..y]
  }

  function RightOf(forest: seq<seq<nat>>, x: nat, y: nat): seq<nat>
    requires Rectangular(forest) && x < |forest| && y < |forest[0]|
  {
    forest[x][y + 1..]
  }

  function TopOf(forest: seq<seq<nat>>, x: nat, y: nat): seq<nat>
    requires Rectangular(forest) && x < |forest| && y < |forest[0]|
  {
    Column(forest, y)[..x]
  }

  function BottomOf(forest: seq<seq<nat>>, x: nat, y: nat): seq<nat>
    requires Rectangular(forest) && x < |forest| && y < |forest[0]|
  {
    Column(forest, y)[x + 1..]
  }

  /** `take_while(|v| tree_height > v).count()`: the number of leading trees
   *  strictly shorter than h. */
  function ShorterPrefix(h: nat, line: seq<nat>): nat
  {
    if line == [] || line[0] >= h then 0 else 1 + ShorterPrefix(h, line[1..])
  }

  /** The prefix counted stops at the first tree at least as tall as h. */
  lemma {:induction false} ShorterPrefixMeaning(h: nat, line: seq<nat>)
    ensures ShorterPrefix(h, line) <= |line|
    ensures forall i :: 0 <= i < ShorterPrefix(h, line) ==> line[i] < h
    ensures ShorterPrefix(h, line) < |line| ==> line[ShorterPrefix(h, line)] >= h
  {
    if line != [] && line[0] < h {
      ShorterPrefixMeaning(h, line[1..]);
    }
  }

  /** A viewing distance: the shorter trees, plus the blocking tree if there is one. */
  function ViewDistance(h: nat, line: seq<nat>): (d: nat)
  {
    var c := ShorterPrefix(h, line);
    if c < |line| then c + 1 else c
  }

  /** `rev().take_while(...)`: the same count, scanning from the end. */
  function ShorterSuffix(h: nat, line: seq<nat>): nat
  {
    if line == [] || line[|line| - 1] >= h then 0 else 1 + ShorterSuffix(h, line[..|line| - 1])
  }

  function ViewDistanceBack(h: nat, line: seq<nat>): nat
  {
    var c := ShorterSuffix(h, line);
    if c < |line| then c + 1 else c
  }

  /** Scanning from the end is scanning the reversed line from the front. */
  lemma {:induction false} ShorterSuffixReverse(h: nat, line: seq<nat>)
    ensures ShorterSuffix(h, line) == ShorterPrefix(h, Reverse(line))
    ensures ViewDistanceBack(h, line) == ViewDistance(h, Reverse(line))
  {
    if line != [] {
      var r := Reverse(line);
      var init := line[..|line| - 1];
      assert r[0] == line[|line| - 1];
      ReverseInit(line);
      ShorterSuffixReverse(h, init);
    }
  }

  /** Dropping the last element of a line drops the first of its reverse. */
  lemma {:induction false} ReverseInit(s: seq<nat>)
    requires |s| > 0
    ensures Reverse(s)[1..] == Reverse(s[..|s| - 1])
  {
    if |s| > 1 {
      var t := s[1..];
      assert Reverse(s) == Reverse(t) + [s[0]];
      ReverseInit(t);
      assert Reverse(s)[1..] == Reverse(t)[1..] + [s[0]];
      var init := s[..|s| - 1];
      assert init[1..] == t[..|t| - 1];
      assert Reverse(init) == Reverse(init[1..]) + [init[0]];
    }
  }

  /** A viewing distance counts the trees up to and including the first one at
   *  least as tall, or all of them; it is between 1 and the line's length. */
  lemma ViewDistanceMeaning(h: nat, line: seq<nat>)
    requires |line| > 0
    ensures 1 <= ViewDistance(h, line) <= |line|
    ensures forall i :: 0 <= i < ViewDistance(h, line) - 1 ==> line[i] < h
    ensures ViewDistance(h, line) < |line| ==> line[ViewDistance(h, line) - 1] >= h
    ensures (forall i :: 0 <= i < |line| ==> line[i] < h) ==> ViewDistance(h, line) == |line|
  {
    ShorterPrefixMeaning(h, line);
  }

  function ScenicScore(forest: seq<seq<nat>>, x: nat, y: nat): nat
    requires Rectangular(forest) && x < |forest| && y < |forest[0]|
  {
    var h := forest[x][y];
    Product(Product(Product(ViewDistanceBack(h, LeftOf(forest, x, y)), ViewDistance(h, RightOf(forest, x, y))),
      ViewDistanceBack(h, TopOf(forest, x, y))), ViewDistance(h, BottomOf(forest, x, y)))
  }

  function Product(a: nat, b: nat): nat { a * b }

  /** The largest height in a non-empty line: the last element after `sort`. */
  function Tallest(line: seq<nat>): nat
    requires |line| > 0
  {
    if |line| == 1 then line[0] else Max(line[0], Tallest(line[1..]))
  }

  /** `Tallest` is the maximum: it occurs in the line and bounds every tree. */
  lemma {:induction false} TallestMeaning(line: seq<nat>)
    requires |line| > 0
    ensures Tallest(line) in line
    ensures forall i :: 0 <= i < |line| ==> line[i] <= Tallest(line)
  {
    if |line| > 1 {
      TallestMeaning(line[1..]);
      forall i | 1 <= i < |line| ensures line[i] <= Tallest(line) {
        assert line[i] == line[1..][i - 1];
      }
    }
  }

  /** The visibility test of `main`, through each direction's tallest tree. */
  predicate Visible(forest: seq<seq<nat>>, x: nat, y: nat)
    requires Rectangular(forest) && 0 < x < |forest| - 1 && 0 < y < |forest[0]| - 1
  {
    var h := forest[x][y];
    h > Tallest(forest[x][..y]) || h > Tallest(forest[x][y + 1..]) ||
    h > Tallest(Column(forest, y)[..x]) || h > Tallest(Column(forest, y)[x + 1..])
  }

  predicate AllShorter(h: nat, line: seq<nat>) { forall i :: 0 <= i < |line| ==> line[i] < h }

  /** An interior tree is visible iff it is strictly taller than every tree in
   *  at least one of the four directions. */
  lemma VisibleMeaning(forest: seq<seq<nat>>, x: nat, y: nat)
    requires Rectangular(forest) && 0 < x < |forest| - 1 && 0 < y < |forest[0]| - 1
    ensures Visible(forest, x, y) <==>
      var h := forest[x][y];
      AllShorter(h, LeftOf(forest, x, y)) || AllShorter(h, RightOf(forest, x, y)) ||
      AllShorter(h, TopOf(forest, x, y)) || AllShorter(h, BottomOf(forest, x, y))
  {
    var h := forest[x][y];
    TallestAllShorter(h, forest[x][..y]);
    TallestAllShorter(h, forest[x][y + 1..]);
    TallestAllShorter(h, Column(forest, y)[..x]);
    TallestAllShorter(h, Column(forest, y)[x + 1..]);
  }

  lemma TallestAllShorter(h: nat, line: seq<nat>)
    requires |line| > 0
    ensures h > Tallest(line) <==> AllShorter(h, line)
  {
    TallestMeaning(line);
  }

  /** The body of the inner loop of `main` for the tree at (x, y): its four
   *  views, its scenic score and its visibility test. */
  method Cell(forest: seq<seq<nat>>, x: nat, y: nat) returns (score: nat, visible: bool)
    requires Rectangular(forest) && 0 < x < |forest| - 1 && 0 < y < |forest[0]| - 1
    ensures score == ScenicScore(forest, x, y)
    ensures visible == Visible(forest, x, y)
  {
    var h := forest[x][y];
    var line := forest[x];
    var column := Column(forest, y);
    var left, right := line[..y], line[y + 1..];
    var top, bottom := column[..x], column[x + 1..];
    score := Product(Product(Product(ViewDistanceBack(h, left), ViewDistance(h, right)),
      ViewDistanceBack(h, top)), ViewDistance(h, bottom));
    visible := h > Tallest(left) || h > Tallest(right) || h > Tallest(top) || h > Tallest(bottom);
  }

  /** Visible interior trees of row x with column in 1..yEnd. */
  function VisibleInRow(forest: seq<seq<nat>>, x: nat, yEnd: nat): nat
    requires Rectangular(forest) && 0 < x < |forest| - 1 && yEnd <= Max(1, |forest[0]| - 1)
  {
    if yEnd <= 1 then 0
    else VisibleInRow(forest, x, yEnd - 1) + (if Visible(forest, x, yEnd - 1) then 1 else 0)
  }

  /** Visible interior trees of the rows 1..xEnd. */
  function VisibleUpTo(forest: seq<seq<nat>>, xEnd: nat): nat
    requires Rectangular(forest) && xEnd <= Max(1, |forest| - 1)
  {
    if xEnd <= 1 then 0 else VisibleUpTo(forest, xEnd - 1) + VisibleInRow(forest, xEnd - 1, |forest[0]| - 1)
  }

  /** Best scenic score over the interior trees of row x with column in 1..yEnd. */
  function BestInRow(forest: seq<seq<nat>>, x: nat, yEnd: nat): nat
    requires Rectangular(forest) && 0 < x < |forest| - 1 && yEnd <= Max(1, |forest[0]| - 1)
  {
    if yEnd <= 1 then 0 else Max(BestInRow(forest, x, yEnd - 1), ScenicScore(forest, x, yEnd - 1))
  }

  function BestUpTo(forest: seq<seq<nat>>, xEnd: nat): nat
    requires Rectangular(forest) && xEnd <= Max(1, |forest| - 1)
  {
    if xEnd <= 1 then 0 else Max(BestUpTo(forest, xEnd - 1), BestInRow(forest, xEnd - 1, |forest[0]| - 1))
  }

  /** The best scenic score bounds the score of every interior tree. */
  lemma {:induction false} BestIsUpperBound(forest: seq<seq<nat>>, xEnd: nat)
    requires Rectangular(forest) && xEnd <= Max(1, |forest| - 1)
    ensures forall x, y :: 0 < x < xEnd && 0 < y < |forest[0]| - 1 ==> ScenicScore(forest, x, y) <= BestUpTo(forest, xEnd)
    decreases xEnd
  {
    if xEnd > 1 {
      var h := |forest[0]| - 1;
      BestIsUpperBound(forest, xEnd - 1);
      BestInRowIsUpperBound(forest, xEnd - 1, h);
      var best := BestUpTo(forest, xEnd);
      assert best == Max(BestUpTo(forest, xEnd - 1), BestInRow(forest, xEnd - 1, h));
      forall x, y | 0 < x < xEnd && 0 < y < h ensures ScenicScore(forest, x, y) <= best {
        if x < xEnd - 1 {
          assert ScenicScore(forest, x, y) <= BestUpTo(forest, xEnd - 1);
        } else {
          assert ScenicScore(forest, x, y) <= BestInRow(forest, xEnd - 1, h);
        }
      }
    }
  }

  /** A non-zero best scenic score is the score of some interior tree. */
  lemma {:induction false} BestIsAttained(forest: seq<seq<nat>>, xEnd: nat)
    requires Rectangular(forest) && xEnd <= Max(1, |forest| - 1)
    ensures BestUpTo(forest, xEnd) == 0 ||
      exists x, y :: 0 < x < xEnd && 0 < y < |forest[0]| - 1 && BestUpTo(forest, xEnd) == ScenicScore(forest, x, y)
    decreases xEnd
  {
    if xEnd > 1 {
      var h := |forest[0]| - 1;
      BestIsAttained(forest, xEnd - 1);
      BestInRowIsAttained(forest, xEnd - 1, h);
      var b, r := BestUpTo(forest, xEnd - 1), BestInRow(forest, xEnd - 1, h);
      var best := BestUpTo(forest, xEnd);
      assert best == Max(b, r);
      if best != 0 {
        if best == b {
          var x, y :| 0 < x < xEnd - 1 && 0 < y < h && b == ScenicScore(forest, x, y);
          assert 0 < x < xEnd && best == ScenicScore(forest, x, y);
        } else {
          var y :| 0 < y < h && r == ScenicScore(forest, xEnd - 1, y);
          assert 0 < xEnd - 1 < xEnd && best == ScenicScore(forest, xEnd - 1, y);
        }
      }
    }
  }

  lemma {:induction false} BestInRowIsUpperBound(forest: seq<seq<nat>>, x: nat, yEnd: nat)
    requires Rectangular(forest) && 0 < x < |forest| - 1 && yEnd <= Max(1, |forest[0]| - 1)
    ensures forall y :: 0 < y < yEnd ==> ScenicScore(forest, x, y) <= BestInRow(forest, x, yEnd)
    decreases yEnd
  {
    if yEnd > 1 {
      BestInRowIsUpperBound(forest, x, yEnd - 1);
    }
  }

  lemma {:induction false} BestInRowIsAttained(forest: seq<seq<nat>>, x: nat, yEnd: nat)
    requires Rectangular(forest) && 0 < x < |forest| - 1 && yEnd <= Max(1, |forest[0]| - 1)
    ensures BestInRow(forest, x, yEnd) == 0 ||
      exists y :: 0 < y < yEnd && BestInRow(forest, x, yEnd) == ScenicScore(forest, x, y)
    decreases yEnd
  {
    if yEnd > 1 {
      BestInRowIsAttained(forest, x, yEnd - 1);
    }
  }

  /** The inner loop of `main` over the interior trees of row x, adding to
   *  the running count and the running best score. */
  method SurveyRow(forest: seq<seq<nat>>, x: nat, visible0: nat, best0: nat) returns (visible: nat, best: nat)
    requires Rectangular(forest) && 0 < x < |forest| - 1
    ensures visible == visible0 + VisibleInRow(forest, x, |forest[0]| - 1)
    ensures best == Max(best0, BestInRow(forest, x, |forest[0]| - 1))
  {
    var height := |forest[0]|;
    visible, best := visible0, best0;
    var y := 1;
    while y < height - 1
      invariant 1 <= y <= Max(1, height - 1)
      invariant visible == visible0 + VisibleInRow(forest, x, y)
      invariant best == Max(best0, BestInRow(forest, x, y))
    {
      visible, best := ScanCell(forest, x, y, visible, best);
      RowStep(forest, x, y);
      y := y + 1;
    }
    if height == 1 {
      assert VisibleInRow(forest, x, 0) == VisibleInRow(forest, x, y) && BestInRow(forest, x, 0) == BestInRow(forest, x, y);
    } else {
      assert y == height - 1;
    }
  }

  /** One step of the inner loop of `main`: the tree at (x, y) adds one to the
   *  count when visible and raises the best score to its own. */
  method ScanCell(forest: seq<seq<nat>>, x: nat, y: nat, visible0: nat, best0: nat) returns (visible: nat, best: nat)
    requires Rectangular(forest) && 0 < x < |forest| - 1 && 0 < y < |forest[0]| - 1
    ensures visible == visible0 + (if Visible(forest, x, y) then 1 else 0)
    ensures best == Max(best0, ScenicScore(forest, x, y))
  {
    var score, visibleHere := Cell(forest, x, y);
    best := if score > best0 then score else best0;
    visible := if visibleHere then visible0 + 1 else visible0;
  }

  /** Extending the scanned part of row x by the tree at column y. */
  lemma RowStep(forest: seq<seq<nat>>, x: nat, y: nat)
    requires Rectangular(forest) && 0 < x < |forest| - 1 && 0 < y < |forest[0]| - 1
    ensures VisibleInRow(forest, x, y + 1) == VisibleInRow(forest, x, y) + (if Visible(forest, x, y) then 1 else 0)
    ensures BestInRow(forest, x, y + 1) == Max(BestInRow(forest, x, y), ScenicScore(forest, x, y))
  {
  }

  /** Extending the scanned rows by row x. */
  lemma UpToStep(forest: seq<seq<nat>>, x: nat)
    requires Rectangular(forest) && 0 < x < |forest| - 1
    ensures VisibleUpTo(forest, x + 1) == VisibleUpTo(forest, x) + VisibleInRow(forest, x, |forest[0]| - 1)
    ensures BestUpTo(forest, x + 1) == Max(BestUpTo(forest, x), BestInRow(forest, x, |forest[0]| - 1))
  {
  }

  /** The nested loops of `main`: count the visible trees, starting from the
   *  2 * width + 2 * height - 4 border trees, and keep the best scenic score. */
  method Survey(forest: seq<seq<nat>>) returns (visible: nat, best: nat)
    requires Rectangular(forest)
    ensures visible == 2 * |forest| + 2 * |forest[0]| - 4 + VisibleUpTo(forest, |forest| - 1)
    ensures best == BestUpTo(forest, |forest| - 1)
  {
    var width := |forest|;
    var height := |forest[0]|;
    visible := 2 * width + 2 * height - 4;
    best := 0;
    var x := 1;
    while x < width - 1
      invariant 1 <= x <= Max(1, width - 1)
      invariant visible == 2 * width + 2 * height - 4 + VisibleUpTo(forest, x)
      invariant best == BestUpTo(forest, x)
    {
      visible, best := SurveyRow(forest, x, visible, best);
      UpToStep(forest, x);
      x := x + 1;
    }
    if width == 1 {
      assert VisibleUpTo(forest, 0) == VisibleUpTo(forest, x) && BestUpTo(forest, 0) == BestUpTo(forest, x);
    } else {
      assert x == width - 1;
    }
  }
}
