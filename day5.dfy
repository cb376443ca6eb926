/** Day 5: crates moved between stacks by a crane. Each stack is a sequence of
 *  crates, bottom first; stack numbers in moves are 1-based. */
module Day5 {
  import opened Common
  import opened Text

  datatype Move = Move(times: nat, from: nat, to: nat)

  /** `Move::from_str`: the words at positions 1, 3 and 5 of the line split on
   *  spaces are the count, the source and the destination. A missing word
   *  panics; a word that is not a usize is an error. */
  function ParseMove(s: string): (r: Result<Move>)
    ensures r.Ok? ==> var w := Split(s, " ");
      |w| >= 6 && ParseUnsigned(w[1], U64_MAX) == Some(r.value.times) &&
      ParseUnsigned(w[3], U64_MAX) == Some(r.value.from) && ParseUnsigned(w[5], U64_MAX) == Some(r.value.to)
  {
    var w := Split(s, " ");
    if |w| < 2 then Err(Panic)
    else match ParseUnsigned(w[1], U64_MAX)
      case None => Err(Error)
      case Some(times) =>
        if |w| < 4 then Err(Panic)
        else match ParseUnsigned(w[3], U64_MAX)
          case None => Err(Error)
          case Some(from) =>
            if |w| < 6 then Err(Panic)
            else match ParseUnsigned(w[5], U64_MAX)
              case None => Err(Error)
              case Some(to) => Ok(Move(times, from, to))
  }

  /** The text of a move, "move N from A to B". */
  function FormatMove(m: Move): string
  {
    Join(["move", NatToString(m.times), "from", NatToString(m.from), "to", NatToString(m.to)], " ")
  }

  lemma DigitsNoSpace(n: nat)
    ensures NoChar(NatToString(n), ' ')
  {
    var s := NatToString(n);
    forall i | 0 <= i < |s| ensures s[i] != ' ' {
      assert IsDigit(s[i]);
    }
  }

  /** Parsing the text of a move gives it back (for values that fit a usize). */
  lemma ParseFormatted(m: Move)
    requires m.times <= U64_MAX && m.from <= U64_MAX && m.to <= U64_MAX
    ensures ParseMove(FormatMove(m)) == Ok(m)
  {
    var parts := ["move", NatToString(m.times), "from", NatToString(m.from), "to", NatToString(m.to)];
    DigitsNoSpace(m.times);
    DigitsNoSpace(m.from);
    DigitsNoSpace(m.to);
    SplitJoin(parts, ' ');
    ParseNatToString(m.times, U64_MAX);
    ParseNatToString(m.from, U64_MAX);
    ParseNatToString(m.to, U64_MAX);
  }

  /** The top `times` crates of the source exist: nothing is popped when
   *  `times` is 0, and otherwise every pop finds a crate. */
  predicate HasBlock(m: Move, stacks: seq<seq<char>>)
  {
    m.times == 0 || (1 <= m.from <= |stacks| && |stacks[m.from - 1]| >= m.times)
  }

  /** What indexing and `unwrap` in `execute` demand. The loop body runs only
   *  when `times` is positive; a crate popped from a stack onto the same
   *  stack comes straight back, so one crate is then enough. */
  predicate CanExecuteOneByOne(m: Move, stacks: seq<seq<char>>)
  {
    m.times == 0 ||
    (1 <= m.from <= |stacks| && 1 <= m.to <= |stacks| &&
     (m.from != m.to ==> |stacks[m.from - 1]| >= m.times) &&
     (m.from == m.to ==> |stacks[m.from - 1]| >= 1))
  }

  /** What `execute_all_at_once` demands: every pop into the buffer finds a
   *  crate, and the destination, which is indexed even for an empty buffer,
   *  names a stack. */
  predicate CanExecuteAllAtOnce(m: Move, stacks: seq<seq<char>>)
  {
    1 <= m.to <= |stacks| && HasBlock(m, stacks)
  }

  /** The top `times` crates of the source, bottom first. */
  function Block(m: Move, stacks: seq<seq<char>>): (r: seq<char>)
    requires HasBlock(m, stacks)
    ensures |r| == m.times
    ensures m.times > 0 ==> stacks[m.from - 1][..|stacks[m.from - 1]| - m.times] + r == stacks[m.from - 1]
  {
    if m.times == 0 then []
    else
      var src := stacks[m.from - 1];
      assert src[..|src| - m.times] + src[|src| - m.times..] == src;
      src[|src| - m.times..]
  }

  /** The stacks after `execute`: the block lands on the destination upside down. */
  function OneAtATime(m: Move, stacks: seq<seq<char>>): (r: seq<seq<char>>)
    requires CanExecuteOneByOne(m, stacks)
    ensures |r| == |stacks|
    ensures forall i :: 0 <= i < |stacks| && i != m.from - 1 && i != m.to - 1 ==> r[i] == stacks[i]
    ensures m.times == 0 || m.from == m.to ==> r == stacks
    ensures m.times > 0 && m.from != m.to ==> r[m.from - 1] + Block(m, stacks) == stacks[m.from - 1]
    ensures m.times > 0 && m.from != m.to ==> r[m.to - 1] == stacks[m.to - 1] + Reverse(Block(m, stacks))
  {
    if m.times == 0 || m.from == m.to then stacks
    else
      var src := stacks[m.from - 1];
      stacks[m.from - 1 := src[..|src| - m.times]][m.to - 1 := stacks[m.to - 1] + Reverse(Block(m, stacks))]
  }

  /** The stacks after `execute_all_at_once`: the block keeps its order. */
  function AllAtOnce(m: Move, stacks: seq<seq<char>>): (r: seq<seq<char>>)
    requires CanExecuteAllAtOnce(m, stacks)
    ensures |r| == |stacks|
    ensures forall i :: 0 <= i < |stacks| && i != m.from - 1 && i != m.to - 1 ==> r[i] == stacks[i]
    ensures m.times == 0 || m.from == m.to ==> r == stacks
    ensures m.times > 0 && m.from != m.to ==> r[m.from - 1] + Block(m, stacks) == stacks[m.from - 1]
    ensures m.times > 0 && m.from != m.to ==> r[m.to - 1] == stacks[m.to - 1] + Block(m, stacks)
  {
    if m.times == 0 || m.from == m.to then stacks
    else
      var src := stacks[m.from - 1];
      stacks[m.from - 1 := src[..|src| - m.times]][m.to - 1 := stacks[m.to - 1] + Block(m, stacks)]
  }

  /** Taking one more crate off the top extends the reversed block by it. */
  lemma TopStep(src: seq<char>, k: nat)
    requires k < |src|
    ensures Reverse(src[|src| - (k + 1)..]) == Reverse(src[|src| - k..]) + [src[|src| - (k + 1)]]
  {
    assert src[|src| - (k + 1)..][1..] == src[|src| - k..];
  }

  /** The stacks after `k` rounds of `execute`'s loop. */
  ghost function Popped(m: Move, stacks: seq<seq<char>>, k: nat): seq<seq<char>>
    requires CanExecuteOneByOne(m, stacks) && 0 < k <= m.times
  {
    var src := stacks[m.from - 1];
    if m.from == m.to then stacks
    else stacks[m.from - 1 := src[..|src| - k]][m.to - 1 := stacks[m.to - 1] + Reverse(src[|src| - k..])]
  }

  /** One round of `execute`'s loop, pop then push, reaches the next state. */
  lemma PopPush(m: Move, stacks: seq<seq<char>>, k: nat, cur: seq<seq<char>>)
    requires CanExecuteOneByOne(m, stacks) && k < m.times
    requires cur == if k == 0 then stacks else Popped(m, stacks, k)
    ensures |cur[m.from - 1]| > 0
    ensures MoveCrate(cur, m.from - 1, m.to - 1) == Popped(m, stacks, k + 1)
  {
    if m.from != m.to {
      var src := stacks[m.from - 1];
      var n := |src|;
      CurShape(m, stacks, k, cur);
      NextShape(m, stacks, k);
      MoveTop(stacks, m.from - 1, m.to - 1, src[..n - (k + 1)], src[n - (k + 1)], stacks[m.to - 1] + Reverse(src[n - k..]));
    } else {
      MoveBack(stacks, m.from - 1);
    }
  }

  /** Before round `k` of `execute`'s loop, for distinct stacks, the next
   *  crate to pop is on top of the source. */
  lemma CurShape(m: Move, stacks: seq<seq<char>>, k: nat, cur: seq<seq<char>>)
    requires CanExecuteOneByOne(m, stacks) && k < m.times && m.from != m.to
    requires cur == if k == 0 then stacks else Popped(m, stacks, k)
    ensures var src := stacks[m.from - 1];
      var n := |src|;
      cur == stacks[m.from - 1 := src[..n - (k + 1)] + [src[n - (k + 1)]]][m.to - 1 := stacks[m.to - 1] + Reverse(src[n - k..])]
  {
    var src := stacks[m.from - 1];
    var n := |src|;
    assert src[..n - k] == src[..n - (k + 1)] + [src[n - (k + 1)]];
    PoppedShape(m, stacks, k, cur);
  }

  /** After round `k` of `execute`'s loop, for distinct stacks, that crate
   *  is on top of the destination. */
  lemma NextShape(m: Move, stacks: seq<seq<char>>, k: nat)
    requires CanExecuteOneByOne(m, stacks) && k < m.times && m.from != m.to
    ensures var src := stacks[m.from - 1];
      var n := |src|;
      Popped(m, stacks, k + 1) == stacks[m.from - 1 := src[..n - (k + 1)]][m.to - 1 := stacks[m.to - 1] + Reverse(src[n - k..]) + [src[n - (k + 1)]]]
  {
    PushReversed(stacks[m.to - 1], stacks[m.from - 1], k);
  }

  /** A crate moved from a stack onto the same stack comes straight back. */
  lemma MoveBack(stacks: seq<seq<char>>, i: nat)
    requires i < |stacks| && |stacks[i]| > 0
    ensures MoveCrate(stacks, i, i) == stacks
  {
    var top := stacks[i];
    assert top[..|top| - 1] + [top[|top| - 1]] == top;
  }

  /** One round of `execute`'s loop: the top crate of stack `i` goes on top
   *  of stack `j`. */
  ghost function MoveCrate(stacks: seq<seq<char>>, i: nat, j: nat): seq<seq<char>>
    requires i < |stacks| && j < |stacks| && |stacks[i]| > 0
  {
    var top := stacks[i];
    var s1 := stacks[i := top[..|top| - 1]];
    s1[j := s1[j] + [top[|top| - 1]]]
  }

  /** Before round `k` of `execute`'s loop, for distinct stacks, the source has
   *  lost its top `k` crates and the destination has gained them reversed. */
  lemma PoppedShape(m: Move, stacks: seq<seq<char>>, k: nat, cur: seq<seq<char>>)
    requires CanExecuteOneByOne(m, stacks) && 0 < m.times && k <= m.times && m.from != m.to
    requires cur == if k == 0 then stacks else Popped(m, stacks, k)
    ensures var src := stacks[m.from - 1];
      cur == stacks[m.from - 1 := src[..|src| - k]][m.to - 1 := stacks[m.to - 1] + Reverse(src[|src| - k..])]
  {
    var src := stacks[m.from - 1];
    if k == 0 {
      assert src[..|src|] == src;
      assert Reverse(src[|src|..]) == [];
      assert stacks[m.to - 1] + [] == stacks[m.to - 1];
    }
  }

  /** The destination after one more round: the next crate goes on top. */
  lemma PushReversed(dst: seq<char>, src: seq<char>, k: nat)
    requires k < |src|
    ensures dst + Reverse(src[|src| - (k + 1)..]) == dst + Reverse(src[|src| - k..]) + [src[|src| - (k + 1)]]
  {
    TopStep(src, k);
  }

  /** Moving the top crate `c` of stack `i` onto stack `j`. */
  lemma MoveTop(stacks: seq<seq<char>>, i: nat, j: nat, x: seq<char>, c: char, y: seq<char>)
    requires i < |stacks| && j < |stacks| && i != j
    ensures MoveCrate(stacks[i := x + [c]][j := y], i, j) == stacks[i := x][j := y + [c]]
  {
    assert (x + [c])[..|x|] == x;
  }

  /** `Move::execute`: pop from the source and push onto the destination, one
   *  crate at a time. */
  method Execute(m: Move, stacks: array<seq<char>>)
    requires CanExecuteOneByOne(m, stacks[..])
    modifies stacks
    ensures stacks[..] == OneAtATime(m, old(stacks[..]))
  {
    ghost var start := stacks[..];
    var k := 0;
    while k < m.times
      invariant 0 <= k <= m.times
      invariant stacks[..] == if k == 0 then start else Popped(m, start, k)
    {
      PopPush(m, start, k, stacks[..]);
      ghost var before := stacks[..];
      var top := stacks[m.from - 1];
      var c := top[|top| - 1];
      stacks[m.from - 1] := top[..|top| - 1];
      assert stacks[..] == before[m.from - 1 := top[..|top| - 1]];
      stacks[m.to - 1] := stacks[m.to - 1] + [c];
      assert stacks[..] == MoveCrate(before, m.from - 1, m.to - 1);
      k := k + 1;
    }
  }

  /** `Move::execute_all_at_once`: pop the block into a buffer, reverse it and
   *  append it to the destination. */
  method ExecuteAllAtOnce(m: Move, stacks: array<seq<char>>)
    requires CanExecuteAllAtOnce(m, stacks[..])
    modifies stacks
    ensures stacks[..] == AllAtOnce(m, old(stacks[..]))
  {
    ghost var start := stacks[..];
    ghost var src := if 1 <= m.from <= stacks.Length then start[m.from - 1] else [];
    var crates: seq<char> := [];
    var k := 0;
    while k < m.times
      invariant 0 <= k <= m.times && k <= |src|
      invariant m.times == 0 ==> stacks[..] == start
      invariant m.times > 0 ==> forall i :: 0 <= i < stacks.Length && i != m.from - 1 ==> stacks[i] == start[i]
      invariant m.times > 0 ==> stacks[m.from - 1] == src[..|src| - k]
      invariant crates == Reverse(src[|src| - k..])
    {
      var top := stacks[m.from - 1];
      crates := crates + [top[|top| - 1]];
      stacks[m.from - 1] := top[..|top| - 1];
      TopStep(src, k);
      k := k + 1;
    }
    ReverseReverse(src[|src| - k..]);
    crates := Reverse(crates);
    ghost var popped := stacks[..];
    stacks[m.to - 1] := stacks[m.to - 1] + crates;
    assert stacks[..] == popped[m.to - 1 := popped[m.to - 1] + crates];
    PutBack(m, start, popped, crates);
  }

  /** Appending the popped block to the destination gives `AllAtOnce`. */
  lemma PutBack(m: Move, start: seq<seq<char>>, popped: seq<seq<char>>, crates: seq<char>)
    requires CanExecuteAllAtOnce(m, start)
    requires m.times == 0 ==> popped == start
    requires m.times > 0 ==> popped == start[m.from - 1 := start[m.from - 1][..|start[m.from - 1]| - m.times]]
    requires crates == Block(m, start)
    ensures popped[m.to - 1 := popped[m.to - 1] + crates] == AllAtOnce(m, start)
  {
    if m.times == 0 {
      assert popped[m.to - 1] + crates == popped[m.to - 1];
    } else if m.from == m.to {
      var src := start[m.from - 1];
      assert src[..|src| - m.times] + crates == src;
    }
  }

  function TotalCrates(stacks: seq<seq<char>>): nat
  {
    if stacks == [] then 0 else |stacks[0]| + TotalCrates(stacks[1..])
  }

  lemma {:induction false} TotalUpdate(stacks: seq<seq<char>>, i: nat, x: seq<char>)
    requires i < |stacks|
    ensures TotalCrates(stacks[i := x]) + |stacks[i]| == TotalCrates(stacks) + |x|
    decreases |stacks|
  {
    if i > 0 {
      assert stacks[i := x][1..] == stacks[1..][i - 1 := x];
      TotalUpdate(stacks[1..], i - 1, x);
    } else {
      assert stacks[i := x][1..] == stacks[1..];
    }
  }

  /** Both crane models keep the total number of crates, whenever the source
   *  would not panic. */
  lemma CratesPreserved(m: Move, stacks: seq<seq<char>>)
    ensures CanExecuteOneByOne(m, stacks) ==> TotalCrates(OneAtATime(m, stacks)) == TotalCrates(stacks)
    ensures CanExecuteAllAtOnce(m, stacks) ==> TotalCrates(AllAtOnce(m, stacks)) == TotalCrates(stacks)
  {
    if m.times > 0 && m.from != m.to && 1 <= m.from <= |stacks| && 1 <= m.to <= |stacks|
      && |stacks[m.from - 1]| >= m.times {
      var src := stacks[m.from - 1];
      var s1 := stacks[m.from - 1 := src[..|src| - m.times]];
      TotalUpdate(stacks, m.from - 1, src[..|src| - m.times]);
      TotalUpdate(s1, m.to - 1, stacks[m.to - 1] + Reverse(Block(m, stacks)));
      TotalUpdate(s1, m.to - 1, stacks[m.to - 1] + Block(m, stacks));
    }
  }

  /** Moving at most one crate, the two cranes agree. */
  lemma SingleCrateAgree(m: Move, stacks: seq<seq<char>>)
    requires CanExecuteAllAtOnce(m, stacks) && m.times <= 1
    ensures CanExecuteOneByOne(m, stacks)
    ensures OneAtATime(m, stacks) == AllAtOnce(m, stacks)
  {
    var b := Block(m, stacks);
    assert |b| <= 1;
    assert Reverse(b) == b;
  }
}
