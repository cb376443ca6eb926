/** Day 3: rucksack items and their priorities. */
module Day3 {
  import opened Common

  /** `Item::priority`: 'a'..'z' are 1..26 and 'A'..'Z' are 27..52; any other
   *  character panics. */
  function Priority(c: char): (r: Result<nat>)
    ensures r.Ok? <==> ('a' <= c <= 'z' || 'A' <= c <= 'Z')
    ensures r.Err? ==> r.failure == Panic
    ensures 'a' <= c <= 'z' ==> r.value == (c as int) - ('a' as int) + 1 && 1 <= r.value <= 26
    ensures 'A' <= c <= 'Z' ==> r.value == (c as int) - ('A' as int) + 27 && 27 <= r.value <= 52
  {
    if 'a' <= c <= 'z' then Ok((c as int) - ('a' as int) + 1)
    else if 'A' <= c <= 'Z' then Ok((c as int) - ('A' as int) + 27)
    else Err(Panic)
  }

  /** Different items never share a priority. */
  lemma PriorityInjective(a: char, b: char)
    requires Priority(a).Ok? && Priority(b).Ok? && Priority(a) == Priority(b)
    ensures a == b
  {
  }

  datatype Rucksack = Rucksack(raw: string, left: string, right: string)

  /** `Rucksack::new`: `raw` is the left compartment followed by the right one. */
  function NewRucksack(left: string, right: string): (r: Rucksack)
    ensures r.raw == left + right && r.left == left && r.right == right
    ensures |r.raw| == |left| + |right|
  {
    Rucksack(left + right, left, right)
  }

  /** `Rucksack::common_items`: the left items that also occur in the right
   *  compartment, in left order and with repeats. */
  function CommonItems(r: Rucksack): (common: seq<char>)
    ensures forall i :: 0 <= i < |common| ==> common[i] in r.left && common[i] in r.right
    ensures |common| <= |r.left|
    ensures |common| > 0 <==> exists i :: 0 <= i < |r.left| && r.left[i] in r.right
    decreases |r.left|
  {
    if r.left == [] then []
    else
      var rest := CommonItems(Rucksack(r.raw, r.left[1..], r.right));
      if r.left[0] in r.right then [r.left[0]] + rest else rest
  }

  /** Each item occurs in the common items exactly as often as in the left
   *  compartment when it is also in the right one, and not at all otherwise. */
  lemma {:induction false} CommonItemsCount(r: Rucksack, c: char)
    ensures multiset(CommonItems(r))[c] == if c in r.right then multiset(r.left)[c] else 0
    decreases |r.left|
  {
    if r.left != [] {
      var tail := Rucksack(r.raw, r.left[1..], r.right);
      CommonItemsCount(tail, c);
      assert r.left == [r.left[0]] + r.left[1..];
    }
  }

  /** The positions from `from` on whose left item the right compartment
   *  holds, in increasing order: the filter written over positions. */
  ghost function Positions(left: string, right: string, from: nat): (p: seq<nat>)
    requires from <= |left|
    ensures forall k :: 0 <= k < |p| ==> from <= p[k] < |left| && left[p[k]] in right
    decreases |left| - from
  {
    if from == |left| then []
    else (if left[from] in right then [from] else []) + Positions(left, right, from + 1)
  }

  /** `Positions` lists, in increasing order, exactly the positions from `from`
   *  on whose item is in the right compartment. */
  lemma {:induction false} PositionsMeaning(left: string, right: string, from: nat)
    requires from <= |left|
    ensures forall a, b :: 0 <= a < b < |Positions(left, right, from)| ==>
      Positions(left, right, from)[a] < Positions(left, right, from)[b]
    ensures forall i :: from <= i < |left| && left[i] in right ==> i in Positions(left, right, from)
    decreases |left| - from
  {
    if from < |left| {
      PositionsMeaning(left, right, from + 1);
    }
  }

  /** The common items of the left items from `from` on are the left items
   *  at `Positions`. */
  lemma {:induction false} CommonItemsAt(raw: string, left: string, right: string, from: nat)
    requires from <= |left|
    ensures var p := Positions(left, right, from);
      |CommonItems(Rucksack(raw, left[from..], right))| == |p| &&
      forall k :: 0 <= k < |p| ==> CommonItems(Rucksack(raw, left[from..], right))[k] == left[p[k]]
    decreases |left| - from
  {
    if from < |left| {
      CommonItemsAt(raw, left, right, from + 1);
      var tail := Rucksack(raw, left[from + 1..], right);
      assert left[from..][1..] == left[from + 1..];
      assert left[from..][0] == left[from];
      var c := CommonItems(Rucksack(raw, left[from..], right));
      var ct := CommonItems(tail);
      var p := Positions(left, right, from);
      var pt := Positions(left, right, from + 1);
      if left[from] in right {
        assert c == [left[from]] + ct;
        assert p == [from] + pt;
      } else {
        assert c == ct;
        assert p == pt;
      }
    }
  }

  /** The common items are the left compartment filtered by membership in the
   *  right one: `idx` lists, in increasing order, exactly the left positions
   *  whose item is in the right compartment, and the common items are the
   *  left items at those positions. */
  lemma CommonItemsFilter(r: Rucksack) returns (idx: seq<nat>)
    ensures |idx| == |CommonItems(r)|
    ensures forall k :: 0 <= k < |idx| ==> idx[k] < |r.left| && CommonItems(r)[k] == r.left[idx[k]]
    ensures forall a, b :: 0 <= a < b < |idx| ==> idx[a] < idx[b]
    ensures forall i :: 0 <= i < |r.left| ==> (r.left[i] in r.right <==> i in idx)
  {
    idx := Positions(r.left, r.right, 0);
    PositionsMeaning(r.left, r.right, 0);
    CommonItemsAt(r.raw, r.left, r.right, 0);
    assert r.left[0..] == r.left;
    assert Rucksack(r.raw, r.left, r.right) == r;
  }

  /** Part one reads the first common item: it is the left item at the
   *  least position whose item the right compartment also holds. */
  lemma CommonItemsFirst(r: Rucksack, i: nat)
    requires i < |r.left| && r.left[i] in r.right
    requires forall j :: 0 <= j < i ==> r.left[j] !in r.right
    ensures |CommonItems(r)| > 0 && CommonItems(r)[0] == r.left[i]
  {
    var idx := CommonItemsFilter(r);
    var k :| 0 <= k < |idx| && idx[k] == i;
    assert r.left[idx[0]] in r.right;
    assert idx[0] >= i;
    assert k == 0;
  }

  /** `Group::tag_item`: the first character of the first rucksack that also
   *  occurs in the other two; panics if there is none. */
  function TagItem(r0: Rucksack, r1: Rucksack, r2: Rucksack): (t: Result<char>)
    ensures t.Err? <==> forall i :: 0 <= i < |r0.raw| ==> !(r0.raw[i] in r1.raw && r0.raw[i] in r2.raw)
    ensures t.Err? ==> t.failure == Panic
    ensures t.Ok? ==> exists i :: (0 <= i < |r0.raw| && r0.raw[i] == t.value &&
      (forall j :: 0 <= j < i ==> !(r0.raw[j] in r1.raw && r0.raw[j] in r2.raw)))
    ensures t.Ok? ==> t.value in r1.raw && t.value in r2.raw
  {
    var i := FirstCommonFrom(r0.raw, 0, r1.raw, r2.raw);
    if i == |r0.raw| then Err(Panic) else Ok(r0.raw[i])
  }

  /** The `filter(...).next()` search from index k on: the index of the first
   *  character that also occurs in b and in c, or the length when none does. */
  function FirstCommonFrom(s: string, k: nat, b: string, c: string): (i: nat)
    requires k <= |s|
    ensures k <= i <= |s|
    ensures forall j :: k <= j < i ==> !(s[j] in b && s[j] in c)
    ensures i < |s| ==> s[i] in b && s[i] in c
    decreases |s| - k
  {
    if k == |s| || (s[k] in b && s[k] in c) then k
    else FirstCommonFrom(s, k + 1, b, c)
  }
}
