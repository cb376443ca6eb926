/** Day 1: calorie counts, one number per line, grouped per elf by the lines
 *  that are not numbers. The group sums go into a max-heap: its top is the
 *  richest elf, and the three largest are added up. */
module Day1 {
  import opened Common
  import opened Text

  /** `line.parse::<i64>()`. */
  function Calories(line: string): Option<int>
  {
    ParseSigned(line, I64_MIN, I64_MAX)
  }

  /** The group sums of the remaining lines, the current group holding `sum` so far. */
  function GroupsFrom(lines: seq<string>, sum: int): seq<int>
  {
    if lines == [] then [sum]
    else match Calories(lines[0])
      case Some(c) => GroupsFrom(lines[1..], sum + c)
      case None => [sum] + GroupsFrom(lines[1..], 0)
  }

  function Groups(lines: seq<string>): seq<int>
  {
    GroupsFrom(lines, 0)
  }

  /** The number of lines that are not numbers. */
  function Separators(lines: seq<string>): nat
  {
    if lines == [] then 0 else (if Calories(lines[0]).None? then 1 else 0) + Separators(lines[1..])
  }

  /** The sum of every number in the input. */
  function Total(lines: seq<string>): int
  {
    if lines == [] then 0
    else match Calories(lines[0])
      case Some(c) => c + Total(lines[1..])
      case None => Total(lines[1..])
  }

  /** There is one group more than there are separating lines. */
  lemma {:induction false} GroupCount(lines: seq<string>, sum: int)
    ensures |GroupsFrom(lines, sum)| == 1 + Separators(lines)
  {
    if lines != [] {
      match Calories(lines[0])
      case Some(c) => GroupCount(lines[1..], sum + c);
      case None => GroupCount(lines[1..], 0);
    }
  }

  /** The group sums add up to the total of all numbers. */
  lemma {:induction false} GroupTotal(lines: seq<string>, sum: int)
    ensures Sum(GroupsFrom(lines, sum)) == sum + Total(lines)
  {
    if lines != [] {
      match Calories(lines[0])
      case Some(c) => GroupTotal(lines[1..], sum + c);
      case None =>
        GroupTotal(lines[1..], 0);
        SumAppend([sum], GroupsFrom(lines[1..], 0));
        SumSingle(sum);
    }
  }

  /** Without separating lines, all numbers form one group. */
  lemma {:induction false} SingleGroup(lines: seq<string>, sum: int)
    requires Separators(lines) == 0
    ensures GroupsFrom(lines, sum) == [sum + Total(lines)]
  {
    if lines != [] {
      match Calories(lines[0])
      case Some(c) => SingleGroup(lines[1..], sum + c);
      case None =>
    }
  }

  /** The loop of `main`: numbers add to `sum`; any other line pushes `sum` and
   *  starts a new group; the last group is pushed after the loop. The heap is
   *  the sequence of pushed sums. */
  method Group(lines: seq<string>) returns (sums: seq<int>)
    ensures sums == Groups(lines)
    ensures |sums| == 1 + Separators(lines) && Sum(sums) == Total(lines)
  {
    sums := [];
    var sum := 0;
    var i := 0;
    while i < |lines|
      invariant 0 <= i <= |lines|
      invariant sums + GroupsFrom(lines[i..], sum) == Groups(lines)
    {
      assert lines[i..][1..] == lines[i + 1..];
      match Calories(lines[i]) {
        case Some(c) =>
          sum := sum + c;
        case None =>
          assert sums + GroupsFrom(lines[i..], sum) == (sums + [sum]) + GroupsFrom(lines[i + 1..], 0);
          sums := sums + [sum];
          sum := 0;
      }
      i := i + 1;
    }
    sums := sums + [sum];
    GroupCount(lines, 0);
    GroupTotal(lines, 0);
  }

  /** `sums.peek()`: the first of the sorted sums. */
  function Peek(sums: seq<int>): int
    requires |sums| > 0
  {
    SortDesc(sums)[0]
  }

  /** The heap's top is the largest group sum. */
  lemma PeekIsMax(sums: seq<int>)
    requires |sums| > 0
    ensures Peek(sums) in sums
    ensures forall i :: 0 <= i < |sums| ==> sums[i] <= Peek(sums)
  {
    var r := SortDesc(sums);
    SortDescProps(sums);
    assert |r| == |multiset(sums)|;
    assert r[0] in multiset(r);
    forall i | 0 <= i < |sums| ensures sums[i] <= r[0] {
      assert sums[i] in multiset(r);
      var j :| 0 <= j < |r| && r[j] == sums[i];
    }
  }

  /** The sum of the three largest group sums. */
  function Top3(sums: seq<int>): int
  {
    var r := SortDesc(sums);
    Sum(r[..Min(3, |r|)])
  }

  /** `top_3` adds the first three, or all, of the group sums arranged in
   *  descending order; with at most three groups it is their total. */
  lemma Top3Meaning(sums: seq<int>)
    ensures exists r :: multiset(r) == multiset(sums) && SortedDesc(r) && Top3(sums) == Sum(r[..Min(3, |r|)])
    ensures |sums| <= 3 ==> Top3(sums) == Sum(sums)
  {
    SortDescProps(sums);
    var r := SortDesc(sums);
    assert |r| == |multiset(sums)|;
    if |sums| <= 3 {
      assert r[..Min(3, |r|)] == r;
    }
  }
}
