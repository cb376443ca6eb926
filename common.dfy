/** Shared result types: every solver reports failure either as an error value
 *  (a `Result::Err` in the source) or as a panic (`unwrap`, `panic!`). */
module Common {
  datatype Option<T> = None | Some(value: T)

  /** How an operation failed: a returned error, or a panic that aborts the program. */
  datatype Failure = Error | Panic

  datatype Result<T> = Ok(value: T) | Err(failure: Failure)
  {
    predicate IsOk() { this.Ok? }
  }

  function Abs(x: int): (r: nat)
    ensures r == x || r == -x
  {
    if x < 0 then -x else x
  }

  function Max(a: int, b: int): (r: int)
    ensures r >= a && r >= b && (r == a || r == b)
  {
    if a < b then b else a
  }

  function Min(a: int, b: int): (r: int)
    ensures r <= a && r <= b && (r == a || r == b)
  {
    if a < b then a else b
  }

  /** Sign of x, as Rust's `i32::signum`. */
  function Sign(x: int): (r: int)
    ensures -1 <= r <= 1 && (r == 0 <==> x == 0) && (r > 0 <==> x > 0)
  {
    if x > 0 then 1 else if x < 0 then -1 else 0
  }

  function Sum(s: seq<int>): int
  {
    if s == [] then 0 else s[0] + Sum(s[1..])
  }

  /** Some element of a non-empty set. */
  lemma Pick<T>(s: set<T>) returns (x: T)
    requires s != {}
    ensures x in s
  {
    x :| x in s;
  }

  predicate IsLeast(s: set<int>, v: int)
  {
    v in s && forall w :: w in s ==> v <= w
  }

  predicate IsGreatest(s: set<int>, v: int)
  {
    v in s && forall w :: w in s ==> w <= v
  }

  /** A finite non-empty set of integers has a least and a greatest element. */
  lemma {:induction false} ExtremesExist(s: set<int>)
    requires s != {}
    ensures (exists v :: IsLeast(s, v)) && (exists v :: IsGreatest(s, v))
    decreases |s|
  {
    var x := Pick(s);
    if s != {x} {
      var rest := s - {x};
      ExtremesExist(rest);
      var lo :| IsLeast(rest, lo);
      var hi :| IsGreatest(rest, hi);
      forall w | w in s
        ensures Min(x, lo) <= w <= Max(x, hi)
      {
        if w != x {
          assert w in rest;
        }
      }
      assert IsLeast(s, Min(x, lo));
      assert IsGreatest(s, Max(x, hi));
    } else {
      assert IsLeast(s, x) && IsGreatest(s, x);
    }
  }

  ghost function Least(s: set<int>): (v: int)
    requires s != {}
    ensures IsLeast(s, v)
  {
    ExtremesExist(s);
    var v :| IsLeast(s, v); v
  }

  ghost function Greatest(s: set<int>): (v: int)
    requires s != {}
    ensures IsGreatest(s, v)
  {
    ExtremesExist(s);
    var v :| IsGreatest(s, v); v
  }

  /** Rust's `.min()` over a non-empty set of integers. */
  method LeastOf(s: set<int>) returns (r: int)
    requires s != {}
    ensures r == Least(s)
  {
    ghost var g := Pick(s);
    var x :| x in s;
    r := x;
    var rest := s - {x};
    while rest != {}
      invariant rest <= s && r in s
      invariant forall w :: w in s && w !in rest ==> r <= w
      decreases |rest|
    {
      ghost var g := Pick(rest);
      var y :| y in rest;
      if y < r {
        r := y;
      }
      rest := rest - {y};
    }
  }

  /** Rust's `.max()` over a non-empty set of integers. */
  method GreatestOf(s: set<int>) returns (r: int)
    requires s != {}
    ensures r == Greatest(s)
  {
    ghost var g := Pick(s);
    var x :| x in s;
    r := x;
    var rest := s - {x};
    while rest != {}
      invariant rest <= s && r in s
      invariant forall w :: w in s && w !in rest ==> w <= r
      decreases |rest|
    {
      ghost var g := Pick(rest);
      var y :| y in rest;
      if y > r {
        r := y;
      }
      rest := rest - {y};
    }
  }

  /** A subset is no larger than the set. */
  lemma {:induction false} SubsetSize<T>(a: set<T>, b: set<T>)
    requires a <= b
    ensures |a| <= |b|
    decreases |a|
  {
    if a != {} {
      var x :| x in a;
      SubsetSize(a - {x}, b - {x});
    }
  }

  lemma {:induction false} SumAppend(a: seq<int>, b: seq<int>)
    ensures Sum(a + b) == Sum(a) + Sum(b)
  {
    if a == [] {
      assert a + b == b;
    } else {
      assert (a + b)[1..] == a[1..] + b;
      SumAppend(a[1..], b);
    }
  }

  lemma SumSingle(x: int)
    ensures Sum([x]) == x
  {
    assert [x][1..] == [];
  }

  function Reverse<T>(s: seq<T>): (r: seq<T>)
    ensures |r| == |s|
    ensures forall i :: 0 <= i < |s| ==> r[i] == s[|s| - 1 - i]
  {
    if s == [] then [] else Reverse(s[1..]) + [s[0]]
  }

  lemma ReverseReverse<T>(s: seq<T>)
    ensures Reverse(Reverse(s)) == s
  {
  }

  predicate SortedDesc(s: seq<int>)
  {
    forall i, j :: 0 <= i < j < |s| ==> s[i] >= s[j]
  }

  /** Insertion into a descending sequence. */
  function Insert(x: int, s: seq<int>): seq<int>
  {
    if s == [] || x >= s[0] then [x] + s else [s[0]] + Insert(x, s[1..])
  }

  /** A sequence in descending order, largest first. */
  function SortDesc(s: seq<int>): seq<int>
  {
    if s == [] then [] else Insert(s[0], SortDesc(s[1..]))
  }

  lemma {:induction false} InsertMultiset(x: int, s: seq<int>)
    ensures multiset(Insert(x, s)) == multiset(s) + multiset{x}
    ensures Sum(Insert(x, s)) == x + Sum(s)
  {
    if s != [] && x < s[0] {
      InsertMultiset(x, s[1..]);
      assert s == [s[0]] + s[1..];
    }
  }

  lemma {:induction false} InsertSorted(x: int, s: seq<int>)
    requires SortedDesc(s)
    ensures SortedDesc(Insert(x, s))
  {
    if s != [] && x < s[0] {
      InsertSorted(x, s[1..]);
      InsertMultiset(x, s[1..]);
      var r := Insert(x, s[1..]);
      var t := [s[0]] + r;
      forall j | 0 < j < |t| ensures s[0] >= t[j] {
        assert t[j] == r[j - 1];
        assert r[j - 1] in multiset(s[1..]) + multiset{x};
        if r[j - 1] != x {
          assert r[j - 1] in s[1..];
        }
      }
    }
  }

  /** Sorting gives a descending permutation with the same sum. */
  lemma {:induction false} SortDescProps(s: seq<int>)
    ensures SortedDesc(SortDesc(s))
    ensures multiset(SortDesc(s)) == multiset(s)
    ensures Sum(SortDesc(s)) == Sum(s)
  {
    if s != [] {
      SortDescProps(s[1..]);
      InsertSorted(s[0], SortDesc(s[1..]));
      InsertMultiset(s[0], SortDesc(s[1..]));
      assert s == [s[0]] + s[1..];
    }
  }
}
