/** Day 13: distress-signal packets, nested lists of unsigned integers, with
 *  a bracket parser, the `Debug` printer and the packet ordering. */
module Day13 {
  import opened Common
  import opened Text

  /** `Element`; the derived `==` is Dafny's structural equality. */
  datatype Element = Integer(n: nat) | List(items: seq<Element>)

  datatype Ordering = Less | Equal | Greater

  /** Every integer of the element fits in a `u32`. */
  predicate Fits(e: Element)
  {
    match e
    case Integer(n) => n <= U32_MAX
    case List(l) => forall i :: 0 <= i < |l| ==> Fits(l[i])
  }

  // ---------------------------------------------------------------------
  // The parser

  /** The `take_while(..).count()` of `from_str`, from index `i` at bracket
   *  depth `level`: the index of the first comma at depth 0, or the end. */
  function TakeCount(s: string, i: nat, level: int): (r: nat)
    requires i <= |s|
    ensures i <= r <= |s|
    ensures r < |s| ==> s[r] == ','
    decreases |s| - i
  {
    if i == |s| then i
    else if s[i] == '[' then TakeCount(s, i + 1, level + 1)
    else if s[i] == ']' then TakeCount(s, i + 1, level - 1)
    else if s[i] == ',' && level == 0 then i
    else TakeCount(s, i + 1, level)
  }

  /** What is left of `raw_list` after the element ending at `k`: the rest,
   *  less one leading comma. */
  function After(raw: string, k: nat): string
    requires k <= |raw|
  {
    var rest := raw[k..];
    if |rest| > 0 && rest[0] == ',' then rest[1..] else rest
  }

  /** `Element::from_str`. A '[' without a closing ']' panics; anything not
   *  starting with '[' must be a `u32`. */
  function Parse(s: string): (r: Result<Element>)
    ensures r.Ok? ==> Fits(r.value)
    ensures r.Ok? ==> (r.value.List? <==> |s| > 0 && s[0] == '[')
    ensures |s| > 0 && s[0] == '[' && (|s| < 2 || s[|s| - 1] != ']') ==> r == Err(Panic)
    decreases |s|, 0
  {
    if |s| > 0 && s[0] == '[' then
      if |s| < 2 || s[|s| - 1] != ']' then Err(Panic)
      else
        match ParseItems(s[1..|s| - 1])
        case Ok(l) => Ok(List(l))
        case Err(f) => Err(f)
    else
      match ParseUnsigned(s, U32_MAX)
      case Some(n) => Ok(Integer(n))
      case None => Err(Error)
  }

  /** The `while` loop of `from_str`: the list items of `raw`, split at the
   *  commas of depth 0, parsed from left to right. */
  function ParseItems(raw: string): (r: Result<seq<Element>>)
    ensures r.Ok? ==> forall i :: 0 <= i < |r.value| ==> Fits(r.value[i])
    decreases |raw|, 1
  {
    if raw == [] then Ok([])
    else
      var k := TakeCount(raw, 0, 0);
      match Parse(raw[..k])
      case Err(f) => Err(f)
      case Ok(e) =>
        match ParseItems(After(raw, k))
        case Err(f) => Err(f)
        case Ok(es) => Ok([e] + es)
  }

  /** The `take_while` of `from_str` as the loop it performs. */
  method FindComma(raw: string) returns (k: nat)
    ensures k == TakeCount(raw, 0, 0)
  {
    var level := 0;
    k := 0;
    while k < |raw|
      invariant 0 <= k <= |raw|
      invariant TakeCount(raw, k, level) == TakeCount(raw, 0, 0)
      decreases |raw| - k
    {
      var c := raw[k];
      if c == '[' {
        level := level + 1;
      } else if c == ']' {
        level := level - 1;
      } else if c == ',' && level == 0 {
        return;
      }
      k := k + 1;
    }
  }

  function Prepend(list: seq<Element>, r: Result<seq<Element>>): Result<seq<Element>>
  {
    match r
    case Ok(es) => Ok(list + es)
    case Err(f) => Err(f)
  }

  /** One turn of the item loop: the parsed item joins the list. */
  lemma ItemStep(list: seq<Element>, raw: string, e: Element)
    requires raw != [] && Parse(raw[..TakeCount(raw, 0, 0)]) == Ok(e)
    ensures Prepend(list, ParseItems(raw)) == Prepend(list + [e], ParseItems(After(raw, TakeCount(raw, 0, 0))))
  {
    var k := TakeCount(raw, 0, 0);
    match ParseItems(After(raw, k))
    case Err(f) =>
      assert ParseItems(raw) == Err(f);
    case Ok(es) =>
      assert ParseItems(raw) == Ok([e] + es);
      assert list + ([e] + es) == (list + [e]) + es;
  }

  /** `Element::from_str` as written: strips the brackets, then splits off,
   *  parses and pushes one item per turn of its loop. */
  method ParseElement(s: string) returns (r: Result<Element>)
    ensures r == Parse(s)
    decreases |s|, 0
  {
    if |s| > 0 && s[0] == '[' {
      if |s| < 2 || s[|s| - 1] != ']' {
        return Err(Panic);
      }
      var items := ParseList(s[1..|s| - 1]);
      if items.Err? {
        return Err(items.failure);
      }
      return Ok(List(items.value));
    } else {
      var n := ParseUnsigned(s, U32_MAX);
      if n.None? {
        return Err(Error);
      }
      return Ok(Integer(n.value));
    }
  }

  /** The item loop of `Element::from_str`. */
  method ParseList(raw: string) returns (r: Result<seq<Element>>)
    ensures r == ParseItems(raw)
    decreases |raw|, 1
  {
    var rawList := raw;
    var list: seq<Element> := [];
    assert Prepend([], ParseItems(rawList)) == ParseItems(rawList) by {
      if ParseItems(rawList).Ok? {
        assert [] + ParseItems(rawList).value == ParseItems(rawList).value;
      }
    }
    while rawList != []
      invariant |rawList| <= |raw|
      invariant ParseItems(raw) == Prepend(list, ParseItems(rawList))
      decreases |rawList|
    {
      ghost var before := rawList;
      var nextComma := FindComma(rawList);
      var element := rawList[..nextComma];
      rawList := After(rawList, nextComma);
      var parsed := ParseElement(element);
      if parsed.Err? {
        return Err(parsed.failure);
      }
      ItemStep(list, before, parsed.value);
      list := list + [parsed.value];
    }
    assert ParseItems(rawList) == Ok([]);
    assert list + [] == list;
    return Ok(list);
  }

  // ---------------------------------------------------------------------
  // The printer

  /** `Debug::fmt`: an integer in decimal, a list in brackets with a comma
   *  after every item. */
  function Show(e: Element): (r: string)
    ensures |r| > 0 && (r[0] == '[' <==> e.List?)
    decreases e, 1
  {
    match e
    case Integer(n) => NatToString(n)
    case List(l) => "[" + ShowItems(l) + "]"
  }

  function ShowItems(l: seq<Element>): string
    decreases l, 0
  {
    if l == [] then "" else Show(l[0]) + "," + ShowItems(l[1..])
  }

  /** `w` occurs in `s` at index `i`. */
  predicate At(s: string, i: nat, w: string)
  {
    i + |w| <= |s| && forall k :: 0 <= k < |w| ==> s[i + k] == w[k]
  }

  /** Digits hold neither brackets nor commas, so the comma scan walks over
   *  them at an unchanged depth. */
  lemma {:induction false} SkipDigits(w: string, s: string, i: nat, level: int)
    requires AllDigits(w) && At(s, i, w)
    ensures TakeCount(s, i, level) == TakeCount(s, i + |w|, level)
    decreases |w|
  {
    if w != [] {
      assert s[i + 0] == w[0];
      assert forall k :: 0 <= k < |w[1..]| ==> s[i + 1 + k] == w[1..][k] by {
        forall k | 0 <= k < |w[1..]| ensures s[i + 1 + k] == w[1..][k] {
          assert s[i + (k + 1)] == w[k + 1];
        }
      }
      SkipDigits(w[1..], s, i + 1, level);
    }
  }

  /** The comma scan, started at a non-negative depth, walks over a printed
   *  element and ends at the depth it started from. */
  lemma {:induction false} SkipShow(e: Element, s: string, i: nat, level: int)
    requires level >= 0 && At(s, i, Show(e))
    ensures TakeCount(s, i, level) == TakeCount(s, i + |Show(e)|, level)
    decreases e, 1
  {
    match e
    case Integer(n) =>
      SkipDigits(Show(e), s, i, level);
    case List(l) =>
      var w := Show(e);
      var inner := ShowItems(l);
      assert w == "[" + inner + "]";
      assert s[i + 0] == w[0] == '[';
      assert At(s, i + 1, inner) by {
        forall k | 0 <= k < |inner| ensures s[i + 1 + k] == inner[k] {
          assert s[i + (1 + k)] == w[1 + k];
        }
      }
      SkipItems(l, s, i + 1, level + 1);
      assert s[i + (1 + |inner|)] == w[1 + |inner|] == ']';
  }

  /** ... and over printed items, whose commas sit at a positive depth. */
  lemma {:induction false} SkipItems(l: seq<Element>, s: string, i: nat, level: int)
    requires level >= 1 && At(s, i, ShowItems(l))
    ensures TakeCount(s, i, level) == TakeCount(s, i + |ShowItems(l)|, level)
    decreases l, 0
  {
    if l != [] {
      var w := ShowItems(l);
      var first := Show(l[0]);
      var tail := ShowItems(l[1..]);
      assert w == first + "," + tail;
      assert At(s, i, first) by {
        forall k | 0 <= k < |first| ensures s[i + k] == first[k] {
          assert w[k] == first[k];
        }
      }
      SkipShow(l[0], s, i, level);
      assert s[i + |first|] == w[|first|] == ',';
      assert At(s, i + |first| + 1, tail) by {
        forall k | 0 <= k < |tail| ensures s[i + |first| + 1 + k] == tail[k] {
          assert s[i + (|first| + 1 + k)] == w[|first| + 1 + k];
        }
      }
      SkipItems(l[1..], s, i + |first| + 1, level);
    }
  }

  /** Parsing the `Debug` text of an element whose integers fit in a `u32`
   *  gives the element back. */
  lemma {:induction false} ParseShow(e: Element)
    requires Fits(e)
    ensures Parse(Show(e)) == Ok(e)
    decreases e, 1
  {
    match e
    case Integer(n) =>
      ParseNatToString(n, U32_MAX);
    case List(l) =>
      var w := Show(e);
      assert w == "[" + ShowItems(l) + "]";
      assert w[1..|w| - 1] == ShowItems(l);
      ParseShowItems(l);
  }

  /** The start of a scan, index 0 at depth 0, as a name rather than a
   *  literal: with literal arguments the verifier keeps unfolding the
   *  scan character by character. */
  lemma Origin() returns (start: nat)
    ensures start == 0
  {
    start := 0;
  }

  /** A scan that walks over the first item stops at the comma after it. */
  lemma ScanItem(raw: string, first: string, tail: string, start: nat)
    requires start == 0 && raw == first + "," + tail
    requires TakeCount(raw, start, start) == TakeCount(raw, start + |first|, start)
    ensures TakeCount(raw, 0, 0) == |first|
  {
    assert raw[|first|] == ',';
  }

  /** An item followed by a comma: where it sits and what follows it. */
  lemma CommaAfter(first: string, tail: string)
    ensures var raw := first + "," + tail;
      && At(raw, 0, first) && raw[|first|] == ','
      && raw[..|first|] == first && After(raw, |first|) == tail
  {
    var raw := first + "," + tail;
    forall k | 0 <= k < |first| ensures raw[0 + k] == first[k] {
    }
    assert raw[|first|..] == "," + tail;
  }

  /** The comma scan over an item and what follows stops at the comma after
   *  the item. */
  lemma ScanFirst(e: Element, tail: string)
    ensures TakeCount(Show(e) + "," + tail, 0, 0) == |Show(e)|
  {
    var raw := Show(e) + "," + tail;
    CommaAfter(Show(e), tail);
    var start := Origin();
    SkipShow(e, raw, start, start);
    ScanItem(raw, Show(e), tail, start);
  }

  /** The comma scan over printed items stops right after the first one. */
  lemma FirstShown(l: seq<Element>)
    requires l != []
    ensures var raw, k := ShowItems(l), |Show(l[0])|;
      && k <= |raw| && TakeCount(raw, 0, 0) == k
      && raw[..k] == Show(l[0]) && After(raw, k) == ShowItems(l[1..])
  {
    assert ShowItems(l) == Show(l[0]) + "," + ShowItems(l[1..]);
    ScanFirst(l[0], ShowItems(l[1..]));
    CommaAfter(Show(l[0]), ShowItems(l[1..]));
  }

  lemma {:induction false} ParseShowItems(l: seq<Element>)
    requires forall i :: 0 <= i < |l| ==> Fits(l[i])
    ensures ParseItems(ShowItems(l)) == Ok(l)
    decreases l, 0
  {
    if l != [] {
      FirstShown(l);
      ParseShow(l[0]);
      ParseShowItems(l[1..]);
      assert [l[0]] + l[1..] == l;
    }
  }

  // ---------------------------------------------------------------------
  // The ordering

  /** `u32::partial_cmp`. */
  function CompareInts(m: nat, n: nat): (r: Ordering)
    ensures r == Less <==> m < n
    ensures r == Equal <==> m == n
    ensures r == Greater <==> m > n
  {
    if m < n then Less else if m > n then Greater else Equal
  }

  /** A size that shrinks from a list to its items, and from an integer
   *  compared with a list to the one-item list the comparison wraps it in. */
  function Size(e: Element): nat
    decreases e, 1
  {
    match e
    case Integer(_) => 1
    case List(l) => 1 + Sizes(l)
  }

  function Sizes(l: seq<Element>): nat
    decreases l, 0
  {
    if l == [] then 0 else Size(l[0]) + 1 + Sizes(l[1..])
  }

  lemma {:induction false} SizeBelow(l: seq<Element>, i: nat)
    requires i < |l|
    ensures Size(l[i]) < Sizes(l)
    decreases i
  {
    if i > 0 {
      SizeBelow(l[1..], i - 1);
    }
  }

  /** `PartialOrd::partial_cmp`: integers by value, lists item by item, and
   *  an integer against a list as the one-item list holding it. The result
   *  is never None, so the order is total. */
  function PartialCmp(a: Element, b: Element): (r: Option<Ordering>)
    ensures r.Some?
    decreases Size(a) + Size(b), 1
  {
    match (a, b)
    case (Integer(m), Integer(n)) => Some(CompareInts(m, n))
    case (List(xs), List(ys)) => CompareFrom(xs, ys, 0)
    case (Integer(_), List(ys)) =>
      assert Sizes([a]) == 2 by { assert [a][1..] == []; }
      CompareFrom([a], ys, 0)
    case (List(xs), Integer(_)) =>
      assert Sizes([b]) == 2 by { assert [b][1..] == []; }
      CompareFrom(xs, [b], 0)
  }

  /** The loop of the list case from index `i` on: the first item comparison
   *  that is not Equal decides; otherwise the shorter list is Less. */
  function CompareFrom(xs: seq<Element>, ys: seq<Element>, i: nat): (r: Option<Ordering>)
    requires i <= |xs| && i <= |ys|
    ensures r.Some?
    decreases Sizes(xs) + Sizes(ys), 0, |xs| - i
  {
    if i < |xs| && i < |ys| then
      SizeBelow(xs, i);
      SizeBelow(ys, i);
      var comp := PartialCmp(xs[i], ys[i]);
      if comp != Some(Equal) then comp else CompareFrom(xs, ys, i + 1)
    else if |xs| > |ys| then Some(Greater)
    else if |xs| < |ys| then Some(Less)
    else Some(Equal)
  }

  /** Two lists: when some item comparison below the shorter length is not
   *  Equal, the first such one is the result; when all are Equal, the
   *  lengths decide. */
  lemma {:induction false} CompareFromMeaning(xs: seq<Element>, ys: seq<Element>, i: nat)
    requires i <= |xs| && i <= |ys|
    ensures var m := Min(|xs|, |ys|);
      (forall j :: i <= j < m ==> PartialCmp(xs[j], ys[j]) == Some(Equal)) ==>
        CompareFrom(xs, ys, i) == Some(CompareInts(|xs|, |ys|))
    ensures forall j :: (i <= j < Min(|xs|, |ys|) && PartialCmp(xs[j], ys[j]) != Some(Equal)
        && (forall k :: i <= k < j ==> PartialCmp(xs[k], ys[k]) == Some(Equal))) ==>
      CompareFrom(xs, ys, i) == PartialCmp(xs[j], ys[j])
    decreases |xs| - i
  {
    if i < |xs| && i < |ys| && PartialCmp(xs[i], ys[i]) == Some(Equal) {
      CompareFromMeaning(xs, ys, i + 1);
    }
  }

  /** The list case of `partial_cmp`, stated without the loop. */
  lemma ListsCompare(xs: seq<Element>, ys: seq<Element>)
    ensures (forall j :: 0 <= j < Min(|xs|, |ys|) ==> PartialCmp(xs[j], ys[j]) == Some(Equal)) ==>
      PartialCmp(List(xs), List(ys)) == Some(CompareInts(|xs|, |ys|))
    ensures forall j :: (0 <= j < Min(|xs|, |ys|) && PartialCmp(xs[j], ys[j]) != Some(Equal)
        && (forall k :: 0 <= k < j ==> PartialCmp(xs[k], ys[k]) == Some(Equal))) ==>
      PartialCmp(List(xs), List(ys)) == PartialCmp(xs[j], ys[j])
  {
    CompareFromMeaning(xs, ys, 0);
  }

  /** An integer compared with a list, in either position, is compared as
   *  the one-item list holding it. */
  lemma MixedCompare(n: nat, ys: seq<Element>)
    ensures PartialCmp(Integer(n), List(ys)) == PartialCmp(List([Integer(n)]), List(ys))
    ensures PartialCmp(List(ys), Integer(n)) == PartialCmp(List(ys), List([Integer(n)]))
  {
  }

  function Flip(o: Option<Ordering>): Option<Ordering>
  {
    match o
    case Some(Less) => Some(Greater)
    case Some(Greater) => Some(Less)
    case _ => o
  }

  /** Swapping the arguments swaps Less and Greater and keeps Equal. */
  lemma {:induction false} CompareSwap(a: Element, b: Element)
    ensures PartialCmp(b, a) == Flip(PartialCmp(a, b))
    decreases Size(a) + Size(b), 1
  {
    match (a, b)
    case (Integer(m), Integer(n)) =>
    case (List(xs), List(ys)) =>
      CompareFromSwap(xs, ys, 0);
    case (Integer(_), List(ys)) =>
      assert Sizes([a]) == 2 by { assert [a][1..] == []; }
      CompareFromSwap([a], ys, 0);
    case (List(xs), Integer(_)) =>
      assert Sizes([b]) == 2 by { assert [b][1..] == []; }
      CompareFromSwap(xs, [b], 0);
  }

  lemma {:induction false} CompareFromSwap(xs: seq<Element>, ys: seq<Element>, i: nat)
    requires i <= |xs| && i <= |ys|
    ensures CompareFrom(ys, xs, i) == Flip(CompareFrom(xs, ys, i))
    decreases Sizes(xs) + Sizes(ys), 0, |xs| - i
  {
    if i < |xs| && i < |ys| {
      SizeBelow(xs, i);
      SizeBelow(ys, i);
      CompareSwap(xs[i], ys[i]);
      CompareFromSwap(xs, ys, i + 1);
    }
  }

  /** Every element compares Equal with itself. */
  lemma {:induction false} CompareSelf(a: Element)
    ensures PartialCmp(a, a) == Some(Equal)
    decreases Size(a), 1
  {
    match a
    case Integer(_) =>
    case List(xs) =>
      CompareFromSelf(xs, 0);
  }

  lemma {:induction false} CompareFromSelf(xs: seq<Element>, i: nat)
    requires i <= |xs|
    ensures CompareFrom(xs, xs, i) == Some(Equal)
    decreases Sizes(xs), 0, |xs| - i
  {
    if i < |xs| {
      SizeBelow(xs, i);
      CompareSelf(xs[i]);
      CompareFromSelf(xs, i + 1);
    }
  }

  /** The custom order calls an integer and the one-item list holding it
   *  Equal, while the derived `==` tells them apart. */
  lemma EqualYetDistinct(n: nat)
    ensures PartialCmp(Integer(n), List([Integer(n)])) == Some(Equal)
    ensures Integer(n) != List([Integer(n)])
  {
    CompareSelf(List([Integer(n)]));
  }

  /** `left <= right` through the hand-written `partial_cmp`: anything but
   *  Greater (partial_cmp always answers). An element is in order with
   *  itself, and a pair out of order is in order once swapped. */
  predicate InOrder(a: Element, b: Element): (r: bool)
    ensures a == b ==> r
    ensures !r ==> PartialCmp(b, a).value == Less
  {
    CompareSelf(a);
    CompareSwap(a, b);
    PartialCmp(a, b).value != Greater
  }

  /** Of a pair and its swap at least one is in order. */
  lemma InOrderEither(a: Element, b: Element)
    ensures InOrder(a, b) || InOrder(b, a)
  {
    CompareSwap(a, b);
  }

  /** Part one over the first `n` pairs of `array_chunks`: the sum of the
   *  1-based indices of the pairs in order. */
  function WellOrderedSum(elements: seq<Element>, n: nat): (r: nat)
    requires 2 * n <= |elements|
    ensures 2 * r <= n * (n + 1)
    ensures n > 0 && InOrder(elements[2 * n - 2], elements[2 * n - 1]) ==> r >= n
    ensures n > 0 && !InOrder(elements[2 * n - 2], elements[2 * n - 1]) ==> 2 * r <= (n - 1) * n
  {
    if n == 0 then 0
    else
      var rest := WellOrderedSum(elements, n - 1);
      assert (n - 1) * n + 2 * n == n * (n + 1);
      rest + (if InOrder(elements[2 * n - 2], elements[2 * n - 1]) then n else 0)
  }

  /** When every pair is in order the sum is 1 + 2 + ... + n. */
  lemma {:induction false} AllInOrderSum(elements: seq<Element>, n: nat)
    requires 2 * n <= |elements|
    requires forall i :: 0 <= i < n ==> InOrder(elements[2 * i], elements[2 * i + 1])
    ensures 2 * WellOrderedSum(elements, n) == n * (n + 1)
  {
    if n > 0 {
      AllInOrderSum(elements, n - 1);
      assert InOrder(elements[2 * (n - 1)], elements[2 * (n - 1) + 1]);
      assert (n - 1) * n + 2 * n == n * (n + 1);
    }
  }

  /** A pair of equal elements is always in order, so a list of such pairs
   *  sums every index. */
  lemma EqualPairsSum(elements: seq<Element>, n: nat)
    requires 2 * n <= |elements|
    requires forall i :: 0 <= i < n ==> elements[2 * i] == elements[2 * i + 1]
    ensures 2 * WellOrderedSum(elements, n) == n * (n + 1)
  {
    forall i | 0 <= i < n
      ensures InOrder(elements[2 * i], elements[2 * i + 1])
    {
      CompareSelf(elements[2 * i]);
    }
    AllInOrderSum(elements, n);
  }
}
