/** Day 20: grove positioning system. The message is a list of numbers,
 *  each tagged with its original index. Mixing moves every number, in
 *  original order, one place at a time around the circular list, as many
 *  places as its value modulo n - 1. The grove coordinates are the numbers
 *  1000, 2000 and 3000 places after the zero. */
module Day20 {

  /** An entry of `Message::array`: the original index and the value. */
  datatype Entry = Entry(id: nat, value: int)

  /** The sequence without its p-th element (`Vec::remove`). */
  function Remove(a: seq<Entry>, p: nat): (r: seq<Entry>)
    requires p < |a|
    ensures |r| == |a| - 1
  {
    a[..p] + a[p + 1..]
  }

  /** The sequence with x put at index q (`Vec::insert`). */
  function Insert(a: seq<Entry>, q: nat, x: Entry): (r: seq<Entry>)
    requires q <= |a|
    ensures |r| == |a| + 1 && r[q] == x
  {
    a[..q] + [x] + a[q..]
  }

  /** Taking back out what was just put in gives the sequence back. */
  lemma RemoveInsert(a: seq<Entry>, q: nat, x: Entry)
    requires q <= |a|
    ensures Remove(Insert(a, q, x), q) == a
  {
    var b := Insert(a, q, x);
    assert b[..q] == a[..q] && b[q + 1..] == a[q..];
    assert a == a[..q] + a[q..];
  }

  /** Removing an entry and putting it back anywhere rearranges the
   *  sequence. */
  lemma RemoveInsertPermutes(a: seq<Entry>, p: nat, q: nat)
    requires p < |a| && q < |a|
    ensures multiset(Insert(Remove(a, p), q, a[p])) == multiset(a)
  {
    var rest := Remove(a, p);
    assert a == a[..p] + [a[p]] + a[p + 1..];
    assert multiset(rest) + multiset{a[p]} == multiset(a);
    assert rest == rest[..q] + rest[q..];
  }

  /** The entry of `move_left` at position p, put one place to the left; at
   *  the front it goes to the next-to-last place. */
  function MovedLeft(a: seq<Entry>, p: nat): (r: seq<Entry>)
    requires |a| >= 2 && p < |a|
    ensures |r| == |a| && multiset(r) == multiset(a)
  {
    var rest := Remove(a, p);
    RemoveInsertPermutes(a, p, if p == 0 then |rest| - 1 else p - 1);
    Insert(rest, if p == 0 then |rest| - 1 else p - 1, a[p])
  }

  /** The entry of `move_right` at position p, put one place to the right;
   *  from the last place it goes to index 1. */
  function MovedRight(a: seq<Entry>, p: nat): (r: seq<Entry>)
    requires |a| >= 2 && p < |a|
    ensures |r| == |a| && multiset(r) == multiset(a)
  {
    var rest := Remove(a, p);
    RemoveInsertPermutes(a, p, if p >= |rest| then 1 else p + 1);
    Insert(rest, if p >= |rest| then 1 else p + 1, a[p])
  }

  /** Where `move_left` puts the entry. */
  function LeftTarget(n: nat, p: nat): nat
    requires n >= 2 && p < n
  {
    if p == 0 then n - 2 else p - 1
  }

  /** Where `move_right` puts the entry. */
  function RightTarget(n: nat, p: nat): nat
    requires n >= 2 && p < n
  {
    if p == n - 1 then 1 else p + 1
  }

  /** The moved entry lands at its target, and removing it from both sides
   *  gives the same sequence: every other entry keeps its relative order. */
  lemma MovedKeepsOrder(a: seq<Entry>, p: nat)
    requires |a| >= 2 && p < |a|
    ensures MovedLeft(a, p)[LeftTarget(|a|, p)] == a[p]
    ensures Remove(MovedLeft(a, p), LeftTarget(|a|, p)) == Remove(a, p)
    ensures MovedRight(a, p)[RightTarget(|a|, p)] == a[p]
    ensures Remove(MovedRight(a, p), RightTarget(|a|, p)) == Remove(a, p)
  {
    RemoveInsert(Remove(a, p), LeftTarget(|a|, p), a[p]);
    RemoveInsert(Remove(a, p), RightTarget(|a|, p), a[p]);
  }

  /** Away from the front, `move_left` swaps the entry with its left
   *  neighbour; at the front it goes just before the last entry. */
  lemma MovedLeftShape(a: seq<Entry>, p: nat)
    requires |a| >= 2 && p < |a|
    ensures p > 0 ==> MovedLeft(a, p) == a[p - 1 := a[p]][p := a[p - 1]]
    ensures p == 0 ==> MovedLeft(a, p) == a[1..|a| - 1] + [a[0], a[|a| - 1]]
  {
    var r := MovedLeft(a, p);
    if p > 0 {
      var s := a[p - 1 := a[p]][p := a[p - 1]];
      assert forall i :: 0 <= i < |a| ==> r[i] == s[i];
    } else {
      var s := a[1..|a| - 1] + [a[0], a[|a| - 1]];
      assert forall i :: 0 <= i < |a| ==> r[i] == s[i];
    }
  }

  /** Away from the back, `move_right` swaps the entry with its right
   *  neighbour; from the back it goes just after the first entry. */
  lemma MovedRightShape(a: seq<Entry>, p: nat)
    requires |a| >= 2 && p < |a|
    ensures p < |a| - 1 ==> MovedRight(a, p) == a[p + 1 := a[p]][p := a[p + 1]]
    ensures p == |a| - 1 ==> MovedRight(a, p) == [a[0], a[|a| - 1]] + a[1..|a| - 1]
  {
    var r := MovedRight(a, p);
    if p < |a| - 1 {
      var s := a[p + 1 := a[p]][p := a[p + 1]];
      assert forall i :: 0 <= i < |a| ==> r[i] == s[i];
    } else {
      var s := [a[0], a[|a| - 1]] + a[1..|a| - 1];
      assert forall i :: 0 <= i < |a| ==> r[i] == s[i];
    }
  }

  /** Some entry carries this id. */
  predicate HasId(a: seq<Entry>, id: nat)
  {
    exists i :: 0 <= i < |a| && a[i].id == id
  }

  /** Every id 0..n-1 is present. */
  predicate AllIds(a: seq<Entry>)
  {
    forall id: nat :: id < |a| ==> HasId(a, id)
  }

  /** Rearranging the entries keeps every id. */
  lemma PresentAfter(a: seq<Entry>, b: seq<Entry>, id: nat)
    requires multiset(a) == multiset(b) && HasId(a, id)
    ensures HasId(b, id)
  {
    var i :| 0 <= i < |a| && a[i].id == id;
    assert a[i] in multiset(b);
    var j :| 0 <= j < |b| && b[j] == a[i];
  }

  lemma AllPresentAfter(a: seq<Entry>, b: seq<Entry>)
    requires multiset(a) == multiset(b) && AllIds(a)
    ensures AllIds(b)
  {
    assert |a| == |multiset(a)| == |multiset(b)| == |b|;
    forall id: nat | id < |b|
      ensures HasId(b, id)
    {
      PresentAfter(a, b, id);
    }
  }

  /** `iter().position(|(n, _)| *n == id)`: the first index with that id. */
  function PositionOf(a: seq<Entry>, id: nat, from: nat := 0): (r: nat)
    requires exists i :: from <= i < |a| && a[i].id == id
    ensures from <= r < |a| && a[r].id == id
    ensures forall j :: from <= j < r ==> a[j].id != id
    decreases |a| - from
  {
    if a[from].id == id then from else PositionOf(a, id, from + 1)
  }

  /** `move_left(id)` as a function of the sequence; a missing id (which
   *  `Message::move_left` would unwrap) leaves it as it is. */
  function MoveLeftId(a: seq<Entry>, id: nat): (r: seq<Entry>)
    ensures |r| == |a| && multiset(r) == multiset(a)
  {
    if |a| >= 2 && HasId(a, id) then MovedLeft(a, PositionOf(a, id)) else a
  }

  /** `move_right(id)` as a function of the sequence. */
  function MoveRightId(a: seq<Entry>, id: nat): (r: seq<Entry>)
    ensures |r| == |a| && multiset(r) == multiset(a)
  {
    if |a| >= 2 && HasId(a, id) then MovedRight(a, PositionOf(a, id)) else a
  }

  /** `move_left(id)` repeated k times. */
  function LeftTimes(a: seq<Entry>, id: nat, k: nat): (r: seq<Entry>)
    ensures |r| == |a| && multiset(r) == multiset(a)
  {
    if k == 0 then a else MoveLeftId(LeftTimes(a, id, k - 1), id)
  }

  /** `move_right(id)` repeated k times. */
  function RightTimes(a: seq<Entry>, id: nat, k: nat): (r: seq<Entry>)
    ensures |r| == |a| && multiset(r) == multiset(a)
  {
    if k == 0 then a else MoveRightId(RightTimes(a, id, k - 1), id)
  }

  /** The single steps `shuffle` makes for a value: |v| mod (n - 1). */
  function Steps(v: int, n: nat): nat
    requires n >= 2
  {
    if v > 0 then v % (n - 1) else (-v) % (n - 1)
  }

  /** The moves of one id: right for a positive value, left otherwise. */
  function MoveId(a: seq<Entry>, id: nat): (r: seq<Entry>)
    ensures |r| == |a|
  {
    if |a| >= 2 && HasId(a, id) then
      var v := a[PositionOf(a, id)].value;
      if v > 0 then RightTimes(a, id, Steps(v, |a|)) else LeftTimes(a, id, Steps(v, |a|))
    else a
  }

  /** The sequence after the ids 0..k-1 have been moved in turn. */
  function Mixed(a: seq<Entry>, k: nat): (r: seq<Entry>)
    ensures |r| == |a|
  {
    if k == 0 then a else MoveId(Mixed(a, k - 1), k - 1)
  }

  /** All the moves of one id rearrange the sequence. */
  lemma MoveIdPermutes(a: seq<Entry>, id: nat)
    ensures multiset(MoveId(a, id)) == multiset(a)
  {
  }

  /** Mixing rearranges the sequence: no entry is lost or duplicated. */
  lemma {:induction false} MixedPermutes(a: seq<Entry>, k: nat)
    ensures multiset(Mixed(a, k)) == multiset(a)
  {
    if k > 0 {
      MixedPermutes(a, k - 1);
      MoveIdPermutes(Mixed(a, k - 1), k - 1);
    }
  }

  /** One more step of the mix moves the entry with the next id, which is
   *  still there. */
  lemma MixedStep(a: seq<Entry>, k: nat)
    requires k < |a| && |a| != 1 && AllIds(a)
    ensures |a| >= 2 && HasId(Mixed(a, k), k)
    ensures Mixed(a, k + 1) == MoveId(Mixed(a, k), k)
  {
    MixedPermutes(a, k);
    PresentAfter(a, Mixed(a, k), k);
  }

  /** `Message::new`: the values numbered from 0. */
  function Enumerate(input: seq<int>): (r: seq<Entry>)
    ensures |r| == |input|
    ensures forall i :: 0 <= i < |input| ==> r[i] == Entry(i, input[i])
    ensures AllIds(r)
  {
    var r := seq(|input|, i requires 0 <= i < |input| => Entry(i, input[i]));
    assert AllIds(r) by {
      forall id: nat | id < |r|
        ensures HasId(r, id)
      {
        assert r[id].id == id;
      }
    }
    r
  }


  /** `Message`: the entries, rearranged in place by the moves. */
  class Message {
    var entries: seq<Entry>

    /** `Message::new`. */
    constructor(input: seq<int>)
      ensures entries == Enumerate(input)
    {
      entries := Enumerate(input);
    }

    /** `Message::move_left`: remove the entry, reinsert one place left. */
    method MoveLeft(id: nat)
      requires |entries| >= 2 && HasId(entries, id)
      modifies this
      ensures entries == MoveLeftId(old(entries), id)
    {
      var position := PositionOf(entries, id);
      var value := entries[position];
      entries := Remove(entries, position);
      if position == 0 {
        entries := Insert(entries, |entries| - 1, value);
      } else {
        entries := Insert(entries, position - 1, value);
      }
    }

    /** `Message::move_right`: remove the entry, reinsert one place right. */
    method MoveRight(id: nat)
      requires |entries| >= 2 && HasId(entries, id)
      modifies this
      ensures entries == MoveRightId(old(entries), id)
    {
      var position := PositionOf(entries, id);
      var value := entries[position];
      entries := Remove(entries, position);
      if position >= |entries| {
        entries := Insert(entries, 1, value);
      } else {
        entries := Insert(entries, position + 1, value);
      }
    }

    /** The moves of one id in `shuffle`. */
    method MoveEntry(i: nat)
      requires |entries| >= 2 && HasId(entries, i)
      modifies this
      ensures entries == MoveId(old(entries), i)
    {
      ghost var start := entries;
      var pos := PositionOf(entries, i);
      var value := entries[pos].value;
      var steps := Steps(value, |entries|);
      if value > 0 {
        for k := 0 to steps
          invariant entries == RightTimes(start, i, k)
        {
          PresentAfter(start, entries, i);
          MoveRight(i);
        }
      } else {
        for k := 0 to steps
          invariant entries == LeftTimes(start, i, k)
        {
          PresentAfter(start, entries, i);
          MoveLeft(i);
        }
      }
    }

    /** `Message::shuffle`: every id in original order. The entries stay a
     *  permutation of the original ones. A message of one entry would divide
     *  by zero, so it is excluded. */
    method Shuffle()
      requires |entries| != 1 && AllIds(entries)
      modifies this
      ensures entries == Mixed(old(entries), |old(entries)|)
      ensures multiset(entries) == multiset(old(entries)) && AllIds(entries)
    {
      ghost var start := entries;
      MixAll(start);
      MixedPermutes(start, |start|);
      AllPresentAfter(start, entries);
    }

    /** The loop of `shuffle` over the ids. */
    method MixAll(ghost start: seq<Entry>)
      requires |start| != 1 && AllIds(start) && entries == start
      modifies this
      ensures entries == Mixed(start, |start|)
    {
      var n := |entries|;
      for i := 0 to n
        invariant n == |start| && entries == Mixed(start, i)
      {
        MixStep(start, i);
      }
    }

    /** One turn of `shuffle`: the entry with id `i` moves. */
    method MixStep(ghost start: seq<Entry>, i: nat)
      requires i < |start| && |start| != 1 && AllIds(start) && entries == Mixed(start, i)
      modifies this
      ensures entries == Mixed(start, i + 1)
    {
      MixedStep(start, i);
      MoveEntry(i);
    }
  }

  /** The position after one more step around a circle of n positions. */
  function Following(n: nat, c: nat): nat
  {
    if c + 1 == n then 0 else c + 1
  }

  /** `(c + 1) % n` for a position c of the circle. */
  lemma NextIndex(c: nat, n: nat)
    requires c < n
    ensures (c + 1) % n == Following(n, c)
  {
    if c + 1 < n {
      assert (c + 1) / n == 0;
    } else {
      assert (c + 1) / n == 1;
    }
  }

  /** The position reached after k steps around n positions from 0: k mod n,
   *  as `CycleBelow` and `CyclePeriod` show. */
  function Cycle(k: nat, n: nat): (r: nat)
    requires n > 0
    ensures r < n
  {
    if k == 0 then 0 else Following(n, Cycle(k - 1, n))
  }

  /** Fewer than n steps reach position k. */
  lemma {:induction false} CycleBelow(k: nat, n: nat)
    requires k < n
    ensures Cycle(k, n) == k
  {
    if k > 0 {
      CycleBelow(k - 1, n);
    }
  }

  /** n more steps come back to the same position. */
  lemma {:induction false} CyclePeriod(k: nat, n: nat)
    requires n > 0
    ensures Cycle(k + n, n) == Cycle(k, n)
  {
    if k == 0 {
      CycleBelow(n - 1, n);
    } else {
      CyclePeriod(k - 1, n);
      assert k + n - 1 == (k - 1) + n;
    }
  }

  /** `Iter`: an endless walk around the message, by position. The ghost
   *  `calls` counts the calls to `next` so far. */
  class Iter {
    const message: Message
    var id: nat
    ghost var calls: nat

    ghost predicate Valid()
      reads this, message
    {
      |message.entries| > 0 && id == Cycle(calls, |message.entries|)
    }

    constructor(m: Message)
      requires |m.entries| > 0
      ensures message == m && calls == 0 && Valid()
    {
      message := m;
      id := 0;
      calls := 0;
    }

    /** `Iter::next`: the k-th call yields the value at position k mod n and
     *  there is always a next value. */
    method Next() returns (v: int)
      requires Valid()
      modifies this
      ensures Valid() && calls == old(calls) + 1
      ensures v == message.entries[Cycle(old(calls), |message.entries|)].value
    {
      var pos := id;
      var n := |message.entries|;
      NextIndex(id, n);
      id := (id + 1) % n;
      calls := calls + 1;
      v := message.entries[pos].value;
    }
  }

  /** Some entry holds the value zero. */
  predicate HasZero(a: seq<Entry>)
  {
    exists i :: 0 <= i < |a| && a[i].value == 0
  }

  /** The first position holding the value zero. */
  function ZeroAt(a: seq<Entry>, from: nat := 0): (r: nat)
    requires exists i :: from <= i < |a| && a[i].value == 0
    ensures from <= r < |a| && a[r].value == 0
    ensures forall j :: from <= j < r ==> a[j].value != 0
    decreases |a| - from
  {
    if a[from].value == 0 then from else ZeroAt(a, from + 1)
  }

  /** `message.iter().skip_while(|v| *v != 0).nth(k)`: the value k places
   *  after the first zero, around the circle. Without a zero the source
   *  never returns, so a zero is required. */
  method Coordinate(m: Message, k: nat) returns (v: int)
    requires HasZero(m.entries)
    ensures v == m.entries[Cycle(ZeroAt(m.entries) + k, |m.entries|)].value
  {
    ghost var a := m.entries;
    ghost var z := ZeroAt(a);
    var it := new Iter(m);
    CycleBelow(0, |a|);
    v := it.Next();
    while v != 0
      invariant it.Valid() && it.message == m && m.entries == a
      invariant 1 <= it.calls <= z + 1
      invariant v == a[it.calls - 1].value
      decreases z + 1 - it.calls
    {
      CycleBelow(it.calls, |a|);
      v := it.Next();
    }
    CycleBelow(z, |a|);
    for j := 0 to k
      invariant it.Valid() && it.message == m && m.entries == a
      invariant it.calls == z + 1 + j
      invariant v == a[Cycle(z + j, |a|)].value
    {
      v := it.Next();
    }
  }

  /** The sum of the three grove coordinates. */
  function GroveSum(a: seq<Entry>): int
    requires HasZero(a)
  {
    var z := ZeroAt(a);
    a[Cycle(z + 1000, |a|)].value + a[Cycle(z + 2000, |a|)].value + a[Cycle(z + 3000, |a|)].value
  }

  /** The message after `rounds` shuffles of the values times `key`. */
  function MixedRounds(a: seq<Entry>, rounds: nat): (r: seq<Entry>)
    requires |a| != 1 && AllIds(a)
    ensures |r| == |a| && multiset(r) == multiset(a) && AllIds(r)
  {
    if rounds == 0 then a
    else
      var b := MixedRounds(a, rounds - 1);
      var c := Mixed(b, |b|);
      MixedPermutes(b, |b|);
      AllPresentAfter(b, c);
      c
  }

  function Scale(input: seq<int>, key: int): (r: seq<int>)
    ensures |r| == |input| && forall i :: 0 <= i < |input| ==> r[i] == input[i] * key
  {
    seq(|input|, i requires 0 <= i < |input| => input[i] * key)
  }

  /** Rearranging the entries keeps a zero. */
  lemma ZeroKept(a: seq<Entry>, b: seq<Entry>)
    requires multiset(a) == multiset(b) && HasZero(a)
    ensures HasZero(b)
  {
    var i :| 0 <= i < |a| && a[i].value == 0;
    assert a[i] in multiset(b);
    var j :| 0 <= j < |b| && b[j] == a[i];
  }

  /** The coordinate sum of a shuffled message. */
  method Grove(m: Message) returns (sum: int)
    requires HasZero(m.entries)
    ensures sum == GroveSum(m.entries)
  {
    var c1 := Coordinate(m, 1000);
    var c2 := Coordinate(m, 2000);
    var c3 := Coordinate(m, 3000);
    sum := c1 + c2 + c3;
  }

  /** The message of `main` after shuffling: values times `key`, `rounds`
   *  shuffles. A zero among the values stays. */
  function Decrypted(input: seq<int>, key: int, rounds: nat): (r: seq<Entry>)
    requires |input| >= 2 && exists i :: 0 <= i < |input| && input[i] == 0
    ensures |r| == |input| && HasZero(r)
  {
    var start := Enumerate(Scale(input, key));
    var i :| 0 <= i < |input| && input[i] == 0;
    assert start[i].value == 0;
    var r := MixedRounds(start, rounds);
    ZeroKept(start, r);
    r
  }

  /** Both parts of `main`: the values times `key` (1, or 811589153 in part
   *  two), shuffled `rounds` times (1, or 10), then the coordinate sum. */
  method Decrypt(input: seq<int>, key: int, rounds: nat) returns (sum: int)
    requires |input| >= 2 && exists i :: 0 <= i < |input| && input[i] == 0
    ensures sum == GroveSum(Decrypted(input, key, rounds))
  {
    var m := new Message(Scale(input, key));
    ghost var start := m.entries;
    for r := 0 to rounds
      invariant |m.entries| == |start| && m.entries == MixedRounds(start, r)
    {
      m.Shuffle();
    }
    ghost var mixed := Decrypted(input, key, rounds);
    assert m.entries == mixed;
    assert HasZero(mixed);
    sum := Grove(m);
  }
}
