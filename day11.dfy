/** Day 11: monkeys passing items. Each monkey inspects its items in order,
 *  applies its operation, divides the worry level by 3 and throws the item to
 *  one of two monkeys depending on a divisibility test. */
module Day11 {
  import opened Common
  import opened Text

  datatype Operand = Old | Value(n: nat)

  /** `Operand::from_str`: "old", or else a u32. */
  function ParseOperand(s: string): (r: Result<Operand>)
    ensures r.Ok? && r.value.Old? <==> s == "old"
    ensures r.Ok? && r.value.Value? ==> s != "old" && ParseUnsigned(s, U32_MAX) == Some(r.value.n)
    ensures r.Err? ==> r.failure == Error && s != "old" && ParseUnsigned(s, U32_MAX).None?
  {
    if s == "old" then Ok(Old)
    else match ParseUnsigned(s, U32_MAX)
      case Some(n) => Ok(Value(n))
      case None => Err(Error)
  }

  /** `Operand::get`. */
  function Get(operand: Operand, worry: nat): (v: nat)
    ensures operand.Old? ==> v == worry
    ensures operand.Value? ==> v == operand.n
  {
    match operand
    case Old => worry
    case Value(n) => n
  }

  datatype Operation = Operation(a: Operand, b: Operand, plus: bool)

  /** `Operation::from_str` on "new = a op b": the words after the first two
   *  are the operands and the operator. */
  function ParseOperation(s: string): (r: Result<Operation>)
    ensures r.Ok? ==> var w := Split(s, " ");
      |w| >= 5 && (w[3] == "+" || w[3] == "*") && r.value.plus == (w[3] == "+") &&
      ParseOperand(w[2]) == Ok(r.value.a) && ParseOperand(w[4]) == Ok(r.value.b)
    ensures var w := Split(s, " ");
      |w| >= 4 && ParseOperand(w[2]).Ok? && w[3] != "+" && w[3] != "*" ==> r == Err(Error)
  {
    var w := Split(s, " ");
    if |w| < 3 then Err(Panic)
    else match ParseOperand(w[2])
      case Err(f) => Err(f)
      case Ok(a) =>
        if |w| < 4 then Err(Panic)
        else if w[3] != "+" && w[3] != "*" then Err(Error)
        else if |w| < 5 then Err(Panic)
        else match ParseOperand(w[4])
          case Err(f) => Err(f)
          case Ok(b) => Ok(Operation(a, b, w[3] == "+"))
  }

  /** `Operation::execute`. */
  function Execute(op: Operation, worry: nat): (v: nat)
    ensures op.plus ==> v == Get(op.a, worry) + Get(op.b, worry)
    ensures !op.plus ==> v == Get(op.a, worry) * Get(op.b, worry)
  {
    var a := Get(op.a, worry);
    var b := Get(op.b, worry);
    if op.plus then a + b else a * b
  }

  datatype Monkey = Monkey(items: seq<nat>, operation: Operation, testDivBy: nat, sendIfTrue: nat, sendIfFalse: nat)

  datatype Transfer = Transfer(target: nat, item: nat)

  /** Where one inspected item goes, and with what worry level; the remainder
   *  by a zero `test_div_by` panics. */
  function Throw(m: Monkey, item: nat): (r: Result<Transfer>)
    ensures r.Err? <==> m.testDivBy == 0
    ensures r.Err? ==> r.failure == Panic
    ensures r.Ok? ==> r.value.item == Execute(m.operation, item) / 3
    ensures r.Ok? ==> r.value.target == if r.value.item % m.testDivBy == 0 then m.sendIfTrue else m.sendIfFalse
  {
    var worry := Execute(m.operation, item) / 3;
    if m.testDivBy == 0 then Err(Panic)
    else Ok(Transfer(if worry % m.testDivBy == 0 then m.sendIfTrue else m.sendIfFalse, worry))
  }

  /** `Monkey::execute`: one transfer per held item, in order, and the monkey
   *  is left without items; a zero divisor panics at the first item. */
  method ExecuteMonkey(m: Monkey) returns (r: Result<(Monkey, seq<Transfer>)>)
    ensures r.Err? <==> m.testDivBy == 0 && m.items != []
    ensures r.Err? ==> r.failure == Panic
    ensures r.Ok? ==> r.value.0 == m.(items := []) && |r.value.1| == |m.items|
    ensures r.Ok? ==> forall k :: 0 <= k < |m.items| ==> Throw(m, m.items[k]) == Ok(r.value.1[k])
  {
    var transfers := [];
    var k := 0;
    while k < |m.items|
      invariant 0 <= k <= |m.items|
      invariant |transfers| == k
      invariant forall j :: 0 <= j < k ==> Throw(m, m.items[j]) == Ok(transfers[j])
      invariant k > 0 ==> m.testDivBy > 0
    {
      var worry := Execute(m.operation, m.items[k]);
      worry := worry / 3;
      if m.testDivBy == 0 {
        return Err(Panic);
      }
      if worry % m.testDivBy == 0 {
        transfers := transfers + [Transfer(m.sendIfTrue, worry)];
      } else {
        transfers := transfers + [Transfer(m.sendIfFalse, worry)];
      }
      k := k + 1;
    }
    r := Ok((m.(items := []), transfers));
  }

  /** Monkeys that can never panic: no zero divisor and only existing targets. */
  predicate ValidMonkeys(ms: seq<Monkey>)
  {
    forall i :: 0 <= i < |ms| ==> ms[i].testDivBy > 0 && ms[i].sendIfTrue < |ms| && ms[i].sendIfFalse < |ms|
  }

  /** The monkeys stripped of their items: what a round never changes. */
  function Rules(ms: seq<Monkey>): (r: seq<Monkey>)
    ensures |r| == |ms|
  {
    seq(|ms|, i requires 0 <= i < |ms| => ms[i].(items := []))
  }

  lemma RulesKeepValid(a: seq<Monkey>, b: seq<Monkey>)
    requires Rules(a) == Rules(b) && ValidMonkeys(a)
    ensures ValidMonkeys(b)
  {
    forall i | 0 <= i < |b| ensures b[i].testDivBy > 0 && b[i].sendIfTrue < |b| && b[i].sendIfFalse < |b| {
      assert Rules(a)[i] == Rules(b)[i];
    }
  }

  /** The transfers of a monkey's turn, or the panic of its first remainder. */
  function Transfers(m: Monkey): (r: Result<seq<Transfer>>)
    ensures r.Err? <==> m.testDivBy == 0 && m.items != []
    ensures r.Ok? ==> |r.value| == |m.items|
    ensures r.Ok? ==> forall k :: 0 <= k < |m.items| ==> Throw(m, m.items[k]) == Ok(r.value[k])
  {
    if m.testDivBy == 0 && m.items != [] then Err(Panic)
    else Ok(seq(|m.items|, k requires 0 <= k < |m.items| => Throw(m, m.items[k]).value))
  }

  /** Pushing the transferred items, in order, onto their targets; indexing a
   *  target past the last monkey panics. */
  function Deliver(ms: seq<Monkey>, ts: seq<Transfer>): (r: Result<seq<Monkey>>)
    ensures r.Ok? <==> forall k :: 0 <= k < |ts| ==> ts[k].target < |ms|
    ensures r.Err? ==> r.failure == Panic
    ensures r.Ok? ==> |r.value| == |ms|
    decreases |ts|
  {
    if ts == [] then Ok(ms)
    else if ts[0].target >= |ms| then Err(Panic)
    else
      var t := ts[0];
      assert forall k :: 1 <= k < |ts| ==> ts[k] == ts[1..][k - 1];
      Deliver(ms[t.target := ms[t.target].(items := ms[t.target].items + [t.item])], ts[1..])
  }

  /** The turn of monkey i: it throws all it holds. */
  function Turn(ms: seq<Monkey>, i: nat): (r: Result<seq<Monkey>>)
    requires i < |ms|
    ensures r.Ok? ==> |r.value| == |ms|
    ensures r.Err? ==> r.failure == Panic
  {
    match Transfers(ms[i])
    case Err(f) => Err(f)
    case Ok(ts) => Deliver(ms[i := ms[i].(items := [])], ts)
  }

  /** A turn panics exactly when the monkey holds an item and either its
   *  divisor is zero or one of its items is sent past the last monkey. */
  lemma TurnPanics(ms: seq<Monkey>, i: nat)
    requires i < |ms|
    ensures Turn(ms, i).Err? <==>
      (ms[i].items != [] &&
       (ms[i].testDivBy == 0 || exists k :: 0 <= k < |ms[i].items| && Throw(ms[i], ms[i].items[k]).value.target >= |ms|))
  {
    if Transfers(ms[i]).Ok? {
      var ts := Transfers(ms[i]).value;
      assert forall k :: 0 <= k < |ts| ==> ts[k] == Throw(ms[i], ms[i].items[k]).value;
    }
  }

  /** Valid monkeys never panic in a turn, and stay valid. */
  lemma ValidTurn(ms: seq<Monkey>, i: nat)
    requires ValidMonkeys(ms) && i < |ms|
    ensures Turn(ms, i).Ok? && ValidMonkeys(Turn(ms, i).value)
  {
    TurnPanics(ms, i);
    TurnRules(ms, i);
    RulesKeepValid(ms, Turn(ms, i).value);
  }

  lemma {:induction false} DeliverRules(ms: seq<Monkey>, ts: seq<Transfer>)
    requires Deliver(ms, ts).Ok?
    ensures Rules(Deliver(ms, ts).value) == Rules(ms)
    ensures ItemCount(Deliver(ms, ts).value) == ItemCount(ms) + |ts|
    decreases |ts|
  {
    if ts != [] {
      var t := ts[0];
      var ms1 := ms[t.target := ms[t.target].(items := ms[t.target].items + [t.item])];
      assert Rules(ms1) == Rules(ms);
      ItemCountUpdate(ms, t.target, ms[t.target].items + [t.item]);
      DeliverRules(ms1, ts[1..]);
    }
  }

  lemma TurnRules(ms: seq<Monkey>, i: nat)
    requires i < |ms| && Turn(ms, i).Ok?
    ensures Rules(Turn(ms, i).value) == Rules(ms)
    ensures ItemCount(Turn(ms, i).value) == ItemCount(ms)
  {
    var ms0 := ms[i := ms[i].(items := [])];
    assert Rules(ms0) == Rules(ms);
    ItemCountUpdate(ms, i, []);
    DeliverRules(ms0, Transfers(ms[i]).value);
  }

  /** The number of items held by all monkeys together. */
  function ItemCount(ms: seq<Monkey>): nat
  {
    if ms == [] then 0 else |ms[0].items| + ItemCount(ms[1..])
  }

  lemma {:induction false} ItemCountUpdate(ms: seq<Monkey>, i: nat, items: seq<nat>)
    requires i < |ms|
    ensures ItemCount(ms[i := ms[i].(items := items)]) + |ms[i].items| == ItemCount(ms) + |items|
    decreases i
  {
    if i == 0 {
      assert ms[i := ms[i].(items := items)][1..] == ms[1..];
    } else {
      assert ms[i := ms[i].(items := items)][1..] == ms[1..][i - 1 := ms[i].(items := items)];
      ItemCountUpdate(ms[1..], i - 1, items);
    }
  }

  /** The monkeys and inspection counts after the turns of monkeys i.. of a
   *  round, or the panic of the first turn that panics. */
  function RoundFrom(ms: seq<Monkey>, counts: seq<nat>, i: nat): (r: Result<(seq<Monkey>, seq<nat>)>)
    requires |counts| == |ms| && i <= |ms|
    ensures r.Ok? ==> |r.value.0| == |ms| && |r.value.1| == |ms|
    ensures r.Err? ==> r.failure == Panic
    decreases |ms| - i
  {
    if i == |ms| then Ok((ms, counts))
    else match Turn(ms, i)
      case Err(f) => Err(f)
      case Ok(next) => RoundFrom(next, counts[i := counts[i] + |ms[i].items|], i + 1)
  }

  /** A round that completes keeps the rules and the total number of items. */
  lemma {:induction false} RoundKeeps(ms: seq<Monkey>, counts: seq<nat>, i: nat)
    requires |counts| == |ms| && i <= |ms| && RoundFrom(ms, counts, i).Ok?
    ensures Rules(RoundFrom(ms, counts, i).value.0) == Rules(ms)
    ensures ItemCount(RoundFrom(ms, counts, i).value.0) == ItemCount(ms)
    decreases |ms| - i
  {
    if i < |ms| {
      TurnRules(ms, i);
      RoundKeeps(Turn(ms, i).value, counts[i := counts[i] + |ms[i].items|], i + 1);
    }
  }

  /** Valid monkeys finish the round without a panic, and stay valid. */
  lemma {:induction false} ValidRound(ms: seq<Monkey>, counts: seq<nat>, i: nat)
    requires ValidMonkeys(ms) && |counts| == |ms| && i <= |ms|
    ensures RoundFrom(ms, counts, i).Ok? && ValidMonkeys(RoundFrom(ms, counts, i).value.0)
    decreases |ms| - i
  {
    if i < |ms| {
      ValidTurn(ms, i);
      ValidRound(Turn(ms, i).value, counts[i := counts[i] + |ms[i].items|], i + 1);
    }
  }

  /** The turns from monkey `i` on leave the counts of the monkeys before it
   *  alone, add to monkey `i`'s count exactly the items it holds now, and never
   *  lower a later monkey's count. */
  lemma {:induction false} RoundCounts(ms: seq<Monkey>, counts: seq<nat>, i: nat)
    requires |counts| == |ms| && i <= |ms| && RoundFrom(ms, counts, i).Ok?
    ensures i < |ms| ==> RoundFrom(ms, counts, i).value.1[i] == counts[i] + |ms[i].items|
    ensures forall j :: 0 <= j < i ==> RoundFrom(ms, counts, i).value.1[j] == counts[j]
    ensures forall j :: i <= j < |ms| ==> RoundFrom(ms, counts, i).value.1[j] >= counts[j]
    decreases |ms| - i
  {
    if i < |ms| {
      RoundCounts(Turn(ms, i).value, counts[i := counts[i] + |ms[i].items|], i + 1);
    }
  }

  /** The inner loop of `main` over the transfers of one turn. */
  method DeliverAll(monkeys: array<Monkey>, transfers: seq<Transfer>) returns (r: Result<()>)
    modifies monkeys
    ensures r.Err? <==> Deliver(old(monkeys[..]), transfers).Err?
    ensures r.Ok? ==> monkeys[..] == Deliver(old(monkeys[..]), transfers).value
  {
    var k := 0;
    while k < |transfers|
      invariant 0 <= k <= |transfers|
      invariant Deliver(monkeys[..], transfers[k..]) == Deliver(old(monkeys[..]), transfers)
    {
      assert transfers[k..][1..] == transfers[k + 1..];
      var t := transfers[k];
      if t.target >= monkeys.Length {
        return Err(Panic);
      }
      monkeys[t.target] := monkeys[t.target].(items := monkeys[t.target].items + [t.item]);
      k := k + 1;
    }
    r := Ok(());
  }

  /** The turn of monkey i in `main`: its count grows by the items it holds,
   *  it executes, and its transfers are pushed onto their targets. */
  method PlayTurn(monkeys: array<Monkey>, inspections: array<nat>, i: nat) returns (r: Result<()>)
    requires inspections.Length == monkeys.Length && i < monkeys.Length
    modifies monkeys, inspections
    ensures r.Err? <==> Turn(old(monkeys[..]), i).Err?
    ensures r.Ok? ==> monkeys[..] == Turn(old(monkeys[..]), i).value
    ensures inspections[..] == old(inspections[..])[i := old(inspections[i]) + |old(monkeys[i].items)|]
  {
    ghost var ms := monkeys[..];
    inspections[i] := inspections[i] + |monkeys[i].items|;
    var executed := ExecuteMonkey(monkeys[i]);
    if executed.Err? {
      return Err(Panic);
    }
    var after, transfers := executed.value.0, executed.value.1;
    assert Transfers(ms[i]).value == transfers;
    monkeys[i] := after;
    assert monkeys[..] == ms[i := ms[i].(items := [])];
    r := DeliverAll(monkeys, transfers);
  }

  /** One round of `main`: every monkey takes its turn, in order, until one
   *  panics. */
  method PlayRound(monkeys: array<Monkey>, inspections: array<nat>) returns (r: Result<()>)
    requires inspections.Length == monkeys.Length
    modifies monkeys, inspections
    ensures r.Err? <==> RoundFrom(old(monkeys[..]), old(inspections[..]), 0).Err?
    ensures r.Ok? ==> (monkeys[..], inspections[..]) == RoundFrom(old(monkeys[..]), old(inspections[..]), 0).value
  {
    var i := 0;
    while i < monkeys.Length
      invariant 0 <= i <= monkeys.Length
      invariant RoundFrom(monkeys[..], inspections[..], i) == RoundFrom(old(monkeys[..]), old(inspections[..]), 0)
    {
      ghost var ms, counts := monkeys[..], inspections[..];
      r := PlayTurn(monkeys, inspections, i);
      if r.Err? {
        assert RoundFrom(ms, counts, i) == Err(Panic);
        return;
      }
      i := i + 1;
    }
    r := Ok(());
  }

  /** The product of the two largest inspection counts. */
  function Business(counts: seq<int>): int
    requires |counts| >= 2
  {
    var r := SortDesc(counts);
    SortDescProps(counts);
    assert |r| == |multiset(counts)|;
    r[0] * r[1]
  }

  /** The business is the product of the first two counts in descending order. */
  lemma BusinessMeaning(counts: seq<int>)
    requires |counts| >= 2
    ensures exists r :: multiset(r) == multiset(counts) && SortedDesc(r) && |r| >= 2 && Business(counts) == r[0] * r[1]
  {
    SortDescProps(counts);
    assert |SortDesc(counts)| == |multiset(counts)|;
  }

  /** The monkeys and counts after n more rounds, or the first panic. */
  function Rounds(ms: seq<Monkey>, counts: seq<nat>, n: nat): (r: Result<(seq<Monkey>, seq<nat>)>)
    requires |counts| == |ms|
    ensures r.Ok? ==> |r.value.0| == |ms| && |r.value.1| == |ms|
    ensures r.Err? ==> r.failure == Panic
    decreases n
  {
    if n == 0 then Ok((ms, counts))
    else match RoundFrom(ms, counts, 0)
      case Err(f) => Err(f)
      case Ok(next) => Rounds(next.0, next.1, n - 1)
  }

  /** Rounds that complete keep the rules and the total number of items. */
  lemma {:induction false} RoundsKeep(ms: seq<Monkey>, counts: seq<nat>, n: nat)
    requires |counts| == |ms| && Rounds(ms, counts, n).Ok?
    ensures Rules(Rounds(ms, counts, n).value.0) == Rules(ms)
    ensures ItemCount(Rounds(ms, counts, n).value.0) == ItemCount(ms)
    decreases n
  {
    if n > 0 {
      RoundKeeps(ms, counts, 0);
      var next := RoundFrom(ms, counts, 0).value;
      RoundsKeep(next.0, next.1, n - 1);
    }
  }

  /** Valid monkeys play any number of rounds without a panic. */
  lemma {:induction false} ValidRounds(ms: seq<Monkey>, counts: seq<nat>, n: nat)
    requires ValidMonkeys(ms) && |counts| == |ms|
    ensures Rounds(ms, counts, n).Ok? && ValidMonkeys(Rounds(ms, counts, n).value.0)
    decreases n
  {
    if n > 0 {
      ValidRound(ms, counts, 0);
      var next := RoundFrom(ms, counts, 0).value;
      ValidRounds(next.0, next.1, n - 1);
    }
  }

  /** `n` rounds of `main`'s simulation, stopping at the first panic. */
  method PlayRounds(monkeys: array<Monkey>, inspections: array<nat>, n: nat) returns (r: Result<()>)
    requires inspections.Length == monkeys.Length
    modifies monkeys, inspections
    ensures r.Err? <==> Rounds(old(monkeys[..]), old(inspections[..]), n).Err?
    ensures r.Ok? ==> (monkeys[..], inspections[..]) == Rounds(old(monkeys[..]), old(inspections[..]), n).value
  {
    for round := 0 to n
      invariant Rounds(monkeys[..], inspections[..], n - round) == Rounds(old(monkeys[..]), old(inspections[..]), n)
    {
      r := PlayRound(monkeys, inspections);
      if r.Err? {
        return;
      }
    }
    r := Ok(());
  }

  /** `main`'s simulation: twenty rounds from zero counts, then the monkey
   *  business. A round panics on a zero divisor or a missing target that an
   *  item reaches, and indexing the second count panics with fewer than two
   *  monkeys. */
  method Simulate(monkeys: array<Monkey>) returns (business: Result<int>)
    modifies monkeys
    ensures business.Err? <==> Rounds(old(monkeys[..]), seq(monkeys.Length, _ => 0), 20).Err? || monkeys.Length < 2
    ensures business.Err? ==> business.failure == Panic
    ensures var r := Rounds(old(monkeys[..]), seq(monkeys.Length, _ => 0), 20);
      r.Ok? ==> monkeys[..] == r.value.0 && ItemCount(monkeys[..]) == ItemCount(old(monkeys[..]))
    ensures var r := Rounds(old(monkeys[..]), seq(monkeys.Length, _ => 0), 20);
      r.Ok? && business.Ok? ==> business.value == Business(r.value.1)
    ensures ValidMonkeys(old(monkeys[..])) ==> (business.Err? <==> monkeys.Length < 2)
  {
    var inspections := new nat[monkeys.Length](_ => 0);
    ghost var zeros := seq(monkeys.Length, _ => 0);
    assert inspections[..] == zeros;
    ghost var ms := monkeys[..];
    if ValidMonkeys(ms) {
      ValidRounds(ms, zeros, 20);
    }
    var played := PlayRounds(monkeys, inspections, 20);
    if played.Err? {
      return Err(Panic);
    }
    RoundsKeep(ms, zeros, 20);
    if monkeys.Length < 2 {
      return Err(Panic);
    }
    var counts: seq<int> := inspections[..];
    business := Ok(Business(counts));
  }
}
