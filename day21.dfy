/** Day 21: monkey math. Each monkey either yells a number or the result of
 *  an operation on the numbers of two other monkeys. Sweeps over all the
 *  monkeys replace every operation whose operands are both known by its
 *  value, until the monkey named "root" has a number. */
module Day21 {
  import opened Common
  import opened Text

  /** `Element`: a number, or an operation on two named monkeys. */
  datatype Element =
    | Add(first: string, second: string)
    | Sub(first: string, second: string)
    | Mul(first: string, second: string)
    | Div(first: string, second: string)
    | Number(n: int)

  /** A monkey name: lower-case letters. */
  predicate IsName(s: string)
  {
    |s| > 0 && forall i :: 0 <= i < |s| ==> 'a' <= s[i] <= 'z'
  }

  /** `Element::from_str`: a first word that parses as an i64 makes a
   *  number; otherwise "first op second". A missing word panics, an
   *  unknown operator is an error. */
  function ParseElement(s: string): (r: Result<Element>)
    ensures r.Ok? && r.value.Number? ==> I64_MIN <= r.value.n <= I64_MAX
    ensures r.Ok? && !r.value.Number? ==> |Split(s, " ")| >= 3
    ensures r.Err? ==> (r.failure == Error <==> |Split(s, " ")| >= 3)
  {
    var words := Split(s, " ");
    match ParseSigned(words[0], I64_MIN, I64_MAX)
    case Some(n) => Ok(Number(n))
    case None =>
      if |words| < 3 then Err(Panic)
      else if words[1] == "+" then Ok(Add(words[0], words[2]))
      else if words[1] == "-" then Ok(Sub(words[0], words[2]))
      else if words[1] == "*" then Ok(Mul(words[0], words[2]))
      else if words[1] == "/" then Ok(Div(words[0], words[2]))
      else Err(Error)
  }

  /** Decimal text of an integer, with a minus sign when negative. */
  function SignedText(n: int): (s: string)
    ensures |s| > 0 && NoChar(s, ' ') && NoChar(s, ':')
  {
    var digits := NatToString(Abs(n));
    assert forall i :: 0 <= i < |digits| ==> IsDigit(digits[i]);
    if n < 0 then "-" + digits else digits
  }

  lemma ParseSignedText(n: int)
    requires I64_MIN <= n <= I64_MAX
    ensures ParseSigned(SignedText(n), I64_MIN, I64_MAX) == Some(n)
  {
    NatToStringValue(Abs(n));
    if n < 0 {
      assert SignedText(n)[1..] == NatToString(Abs(n));
    }
  }

  /** The symbol of an operation. */
  function Symbol(e: Element): string
    requires !e.Number?
  {
    match e
    case Add(_, _) => "+"
    case Sub(_, _) => "-"
    case Mul(_, _) => "*"
    case Div(_, _) => "/"
  }

  /** The text of an element, as in the puzzle input. */
  function ElementText(e: Element): string
  {
    if e.Number? then SignedText(e.n) else e.first + " " + Symbol(e) + " " + e.second
  }

  /** An element the input can describe: an i64 number, or two names. */
  predicate WellFormed(e: Element)
  {
    if e.Number? then I64_MIN <= e.n <= I64_MAX else IsName(e.first) && IsName(e.second)
  }

  /** Parsing the text of an element gives it back. */
  lemma ParseElementText(e: Element)
    requires WellFormed(e)
    ensures ParseElement(ElementText(e)) == Ok(e)
  {
    if e.Number? {
      var t := SignedText(e.n);
      SplitJoin([t], ' ');
      ParseSignedText(e.n);
    } else {
      OperationText(e);
    }
  }

  /** The text of an operation splits into its three words, and its first
   *  word, a name, is no number. */
  lemma OperationText(e: Element)
    requires WellFormed(e) && !e.Number?
    ensures Split(ElementText(e), " ") == [e.first, Symbol(e), e.second]
    ensures ParseSigned(e.first, I64_MIN, I64_MAX) == None
  {
    var words := [e.first, Symbol(e), e.second];
    assert Join(words, " ") == ElementText(e) by {
      assert words[1..] == [Symbol(e), e.second];
      assert words[1..][1..] == [e.second];
      assert Join(words[1..][1..], " ") == e.second;
      assert Join(words[1..], " ") == Symbol(e) + " " + e.second;
    }
    forall k | 0 <= k < 3
      ensures NoChar(words[k], ' ')
    {
      assert k == 0 ==> words[k] == e.first;
      assert k == 2 ==> words[k] == e.second;
    }
    SplitJoin(words, ' ');
    assert !IsDigit(e.first[0]) && e.first[0] != '-' && e.first[0] != '+';
  }

  /** Division rounding toward zero, as Rust's `/` on i64. */
  function TruncDiv(a: int, b: int): (q: int)
    requires b != 0
    ensures Abs(q) * Abs(b) <= Abs(a) < (Abs(q) + 1) * Abs(b)
    ensures q == 0 || ((q < 0) <==> ((a < 0) != (b < 0)))
  {
    var m := Abs(a) / Abs(b);
    DivBounds(Abs(a), Abs(b));
    if (a < 0) != (b < 0) then -m else m
  }

  lemma DivBounds(x: nat, y: nat)
    requires y > 0
    ensures (x / y) * y <= x < (x / y + 1) * y
  {
    assert x == (x / y) * y + x % y;
  }

  /** `Element::calculate`: the operation applied to the operand values.
   *  A number is not an operation (an error); a division by zero or a
   *  result outside the i64 range panics. */
  function Calculate(e: Element, a: int, b: int): (r: Result<int>)
    ensures r.Err? && e.Number? ==> r.failure == Error
    ensures r.Err? && !e.Number? ==> r.failure == Panic
    ensures r.Ok? ==> I64_MIN <= r.value <= I64_MAX
    ensures e.Add? && I64_MIN <= a + b <= I64_MAX ==> r == Ok(a + b)
    ensures e.Sub? && I64_MIN <= a - b <= I64_MAX ==> r == Ok(a - b)
    ensures e.Mul? && I64_MIN <= a * b <= I64_MAX ==> r == Ok(a * b)
    ensures e.Div? ==> (r.Ok? <==> b != 0 && I64_MIN <= TruncDiv(a, b) <= I64_MAX)
  {
    if e.Number? then Err(Error)
    else if e.Div? && b == 0 then Err(Panic)
    else
      var v := match e
        case Add(_, _) => a + b
        case Sub(_, _) => a - b
        case Mul(_, _) => a * b
        case Div(_, _) => TruncDiv(a, b);
      if I64_MIN <= v <= I64_MAX then Ok(v) else Err(Panic)
  }

  /** `Element::is_operation`. */
  predicate IsOperation(e: Element)
  {
    !e.Number?
  }

  /** `Element::get_orerands`. */
  function Operands(e: Element): Result<(string, string)>
  {
    if e.Number? then Err(Error) else Ok((e.first, e.second))
  }

  /** `Element::get_number`. */
  function NumberOf(e: Element): Result<int>
  {
    if e.Number? then Ok(e.n) else Err(Error)
  }

  /** The accessors agree: an element has operands exactly when it is an
   *  operation and a number exactly when it is not, and only operations
   *  can be calculated. */
  lemma AccessorsAgree(e: Element, a: int, b: int)
    ensures IsOperation(e) <==> Operands(e).Ok?
    ensures IsOperation(e) <==> NumberOf(e).Err?
    ensures !IsOperation(e) ==> Calculate(e, a, b) == Err(Error)
    ensures Operands(e).Ok? ==> Operands(e).value == (e.first, e.second)
    ensures NumberOf(e).Ok? ==> NumberOf(e).value == e.n
  {
  }

  /** The monkeys by name. */
  type Monkeys = map<string, Element>

  /** Every operand names a monkey. */
  predicate Closed(m: Monkeys)
  {
    forall k {:trigger IsOperation(m[k])} :: k in m && IsOperation(m[k]) ==> m[k].first in m && m[k].second in m
  }

  /** `rank` orders the monkeys so that the operands of an operation come
   *  before it: the references have no cycle. */
  predicate Ranked(m: Monkeys, rank: map<string, nat>)
  {
    Closed(m) && m.Keys <= rank.Keys &&
    forall k {:trigger IsOperation(m[k])} :: k in m && IsOperation(m[k]) ==>
      rank[m[k].first] < rank[k] && rank[m[k].second] < rank[k]
  }

  /** The value of monkey `name`, evaluated recursively over the original
   *  monkeys. */
  function Eval(m: Monkeys, rank: map<string, nat>, name: string): Result<int>
    requires Ranked(m, rank) && name in m
    decreases rank[name]
  {
    var e := m[name];
    if !IsOperation(e) then Ok(e.n)
    else
      match Eval(m, rank, e.first)
      case Err(f) => Err(f)
      case Ok(a) =>
        match Eval(m, rank, e.second)
        case Err(f) => Err(f)
        case Ok(b) => Calculate(e, a, b)
  }

  /** The monkeys still waiting on an operation. */
  function Ops(m: Monkeys): set<string>
  {
    set k | k in m && IsOperation(m[k])
  }

  /** An operation whose operands both have numbers. */
  predicate Ready(m: Monkeys, k: string)
    requires Closed(m) && k in m
  {
    IsOperation(m[k]) && !IsOperation(m[m[k].first]) && !IsOperation(m[m[k].second])
  }

  /** Part way through: the same monkeys, each either unchanged or a number
   *  that is its recursive value. */
  predicate Consistent(orig: Monkeys, rank: map<string, nat>, cur: Monkeys)
    requires Ranked(orig, rank)
  {
    cur.Keys == orig.Keys && forall k :: k in cur ==> Agrees(orig, rank, cur, k)
  }

  /** Monkey `k` is unchanged or holds its recursive value. */
  predicate Agrees(orig: Monkeys, rank: map<string, nat>, cur: Monkeys, k: string)
    requires Ranked(orig, rank) && k in orig && k in cur
  {
    if cur[k].Number? then Eval(orig, rank, k) == Ok(cur[k].n) else cur[k] == orig[k]
  }

  lemma ConsistentRanked(orig: Monkeys, rank: map<string, nat>, cur: Monkeys)
    requires Ranked(orig, rank) && Consistent(orig, rank, cur)
    ensures Ranked(cur, rank)
  {
  }

  /** While some operation is left, one of them is ready: follow unknown
   *  operands down the ranks. */
  lemma {:induction false} ReadyExists(m: Monkeys, rank: map<string, nat>, k: string) returns (y: string)
    requires Ranked(m, rank) && k in m && IsOperation(m[k])
    ensures y in m && Ready(m, y)
    decreases rank[k]
  {
    var e := m[k];
    if IsOperation(m[e.first]) {
      y := ReadyExists(m, rank, e.first);
    } else if IsOperation(m[e.second]) {
      y := ReadyExists(m, rank, e.second);
    } else {
      y := k;
    }
  }

  /** No monkey became an operation again. */
  predicate NoNewOps(before: Monkeys, after: Monkeys)
  {
    forall k :: k in after && IsOperation(after[k]) ==> k in before && IsOperation(before[k])
  }

  /** Monkey `name` in a sweep: an operation whose operands are both
   *  numbers becomes the number it calculates. */
  method Visit(cur: Monkeys, name: string, ghost orig: Monkeys, ghost rank: map<string, nat>)
    returns (r: Result<Monkeys>)
    requires Ranked(orig, rank) && Consistent(orig, rank, cur) && name in cur
    ensures r.Ok? ==> Consistent(orig, rank, r.value) && NoNewOps(cur, r.value)
    ensures r.Ok? && Ready(cur, name) ==> !IsOperation(r.value[name])
    ensures r.Err? ==> r.failure == Panic && name in orig && Eval(orig, rank, name).Err?
  {
    ConsistentRanked(orig, rank, cur);
    var e := cur[name];
    if IsOperation(e) {
      var first, second := e.first, e.second;
      if !IsOperation(cur[first]) && !IsOperation(cur[second]) {
        var value := Calculate(e, cur[first].n, cur[second].n);
        if value.Err? {
          return Err(Panic);
        }
        return Ok(cur[name := Number(value.value)]);
      }
    }
    return Ok(cur);
  }

  /** `keys` holds exactly the monkeys' names (`input.keys()`, in whatever
   *  order the map gives). */
  predicate Enumerates(m: Monkeys, keys: seq<string>)
  {
    (forall k :: k in m ==> k in keys) && (forall j :: 0 <= j < |keys| ==> keys[j] in m)
  }

  /** One sweep of `main` over all the names. While operations are left, a
   *  sweep turns at least one of them into a number. */
  method Sweep(cur: Monkeys, keys: seq<string>, ghost orig: Monkeys, ghost rank: map<string, nat>)
    returns (r: Result<Monkeys>)
    requires Ranked(orig, rank) && Consistent(orig, rank, cur) && Enumerates(cur, keys)
    ensures r.Ok? ==> Consistent(orig, rank, r.value) && Ops(r.value) <= Ops(cur)
    ensures r.Ok? && Ops(cur) != {} ==> |Ops(r.value)| < |Ops(cur)|
    ensures r.Err? ==> r.failure == Panic && exists k :: k in orig && Eval(orig, rank, k).Err?
  {
    ConsistentRanked(orig, rank, cur);
    var next := cur;
    for i := 0 to |keys|
      invariant Consistent(orig, rank, next) && NoNewOps(cur, next)
      invariant Settled(cur, next, keys, i)
    {
      var step := Visit(next, keys[i], orig, rank);
      if step.Err? {
        return Err(Panic);
      }
      SettledStep(orig, rank, cur, next, step.value, keys, i);
      next := step.value;
    }
    SweepShrinks(cur, next, keys, rank);
    return Ok(next);
  }

  /** After a whole sweep some operation is gone, as long as one was left. */
  lemma SweepShrinks(cur: Monkeys, next: Monkeys, keys: seq<string>, rank: map<string, nat>)
    requires Ranked(cur, rank) && Enumerates(cur, keys) && NoNewOps(cur, next)
    requires Settled(cur, next, keys, |keys|)
    ensures Ops(next) <= Ops(cur)
    ensures Ops(cur) != {} ==> |Ops(next)| < |Ops(cur)|
  {
    if Ops(cur) != {} {
      var k :| k in Ops(cur);
      var y := ReadyExists(cur, rank, k);
      var j :| 0 <= j < |keys| && keys[j] == y;
      OpsShrink(cur, next, y);
    } else {
      OpsShrink(cur, next, "");
    }
  }

  /** Every monkey among the first `i` names that was ready in `cur` is a
   *  number in `next`. */
  predicate Settled(cur: Monkeys, next: Monkeys, keys: seq<string>, i: int)
    requires Closed(cur)
  {
    forall j :: 0 <= j < i && j < |keys| && keys[j] in cur && Ready(cur, keys[j]) ==>
      keys[j] in next && !IsOperation(next[keys[j]])
  }

  /** Visiting name `i` keeps the sweep's invariant. */
  lemma SettledStep(orig: Monkeys, rank: map<string, nat>, cur: Monkeys, next: Monkeys, after: Monkeys,
                    keys: seq<string>, i: int)
    requires Ranked(orig, rank) && Consistent(orig, rank, cur) && Consistent(orig, rank, next)
    requires Closed(cur) && NoNewOps(cur, next) && Settled(cur, next, keys, i) && 0 <= i < |keys|
    requires keys[i] in next && NoNewOps(next, after) && after.Keys == next.Keys
    requires Closed(next) && Ready(next, keys[i]) ==> !IsOperation(after[keys[i]])
    ensures NoNewOps(cur, after) && Settled(cur, after, keys, i + 1)
  {
    if keys[i] in cur && Ready(cur, keys[i]) && IsOperation(next[keys[i]]) {
      ReadyKept(orig, rank, cur, next, keys[i]);
    }
  }

  /** The operations left only shrink, strictly when one became a number. */
  lemma OpsShrink(cur: Monkeys, next: Monkeys, y: string)
    requires NoNewOps(cur, next)
    ensures Ops(next) <= Ops(cur)
    ensures y in Ops(cur) && y in next && !IsOperation(next[y]) ==> |Ops(next)| < |Ops(cur)|
  {
    if y in Ops(cur) && y in next && !IsOperation(next[y]) {
      SubsetSize(Ops(next), Ops(cur) - {y});
    }
  }

  /** A ready monkey that is still an operation later in the sweep is
   *  still ready: numbers stay numbers. */
  lemma ReadyKept(orig: Monkeys, rank: map<string, nat>, cur: Monkeys, next: Monkeys, k: string)
    requires Ranked(orig, rank) && Consistent(orig, rank, cur) && Consistent(orig, rank, next)
    requires NoNewOps(cur, next) && k in cur && Closed(cur) && Ready(cur, k) && IsOperation(next[k])
    ensures Closed(next) && Ready(next, k)
  {
    ConsistentRanked(orig, rank, next);
    assert cur[k] == orig[k] == next[k];
  }

  /** The reduction loop of `main`: sweeps until "root" has a number, then
   *  that number. A missing "root" panics; every other failure is a panic
   *  in the calculation of some monkey. */
  method Solve(input: Monkeys, keys: seq<string>, ghost rank: map<string, nat>) returns (r: Result<int>)
    requires Ranked(input, rank) && Enumerates(input, keys)
    ensures "root" !in input ==> r == Err(Panic)
    ensures r.Ok? ==> "root" in input && Eval(input, rank, "root") == Ok(r.value)
    ensures r.Err? ==> r.failure == Panic
    ensures r.Err? && "root" in input ==> exists k :: k in input && Eval(input, rank, k).Err?
  {
    if "root" !in input {
      return Err(Panic);
    }
    var cur := input;
    while IsOperation(cur["root"])
      invariant Consistent(input, rank, cur)
      decreases |Ops(cur)|
    {
      var swept := Sweep(cur, keys, input, rank);
      if swept.Err? {
        return Err(Panic);
      }
      assert "root" in Ops(cur);
      cur := swept.value;
    }
    return Ok(cur["root"].n);
  }

  /** One line of the input, "name: element"; a missing or unparsable
   *  element panics (`unwrap`). */
  function ParseLine(line: string): (r: Result<(string, Element)>)
    ensures r.Err? ==> r.failure == Panic
  {
    var parts := Split(line, ": ");
    if |parts| < 2 then Err(Panic)
    else
      match ParseElement(parts[1])
      case Err(_) => Err(Panic)
      case Ok(e) => Ok((parts[0], e))
  }

  /** Printing a monkey as its input line and parsing it gives it back. */
  lemma ParseLineText(name: string, e: Element)
    requires IsName(name) && WellFormed(e)
    ensures ParseLine(name + ": " + ElementText(e)) == Ok((name, e))
  {
    var parts := [name, ElementText(e)];
    assert Join(parts, ": ") == name + ": " + ElementText(e) by {
      assert parts[1..] == [ElementText(e)];
    }
    assert NoChar(parts[0], ':');
    if !e.Number? {
      assert NoChar(parts[1], ':') by {
        var t := parts[1];
        assert t == e.first + " " + Symbol(e) + " " + e.second;
        forall i | 0 <= i < |t|
          ensures t[i] != ':'
        {
          if i < |e.first| {
            assert t[i] == e.first[i];
          } else if i >= |t| - |e.second| {
            assert t[i] == e.second[i - (|t| - |e.second|)];
          }
        }
      }
    }
    SplitJoinMarked(parts, ": ");
    ParseElementText(e);
  }

  /** The input map: a later line for the same name replaces an earlier one
   *  (`collect` into a `HashMap`). */
  function ParseMonkeys(lines: seq<string>): (r: Result<Monkeys>)
    ensures r.Err? ==> r.failure == Panic
    ensures r.Ok? && |lines| > 0 ==>
      && ParseLine(lines[|lines| - 1]).Ok?
      && var last := ParseLine(lines[|lines| - 1]).value;
         last.0 in r.value && r.value[last.0] == last.1
  {
    if lines == [] then Ok(map[])
    else
      match ParseMonkeys(lines[..|lines| - 1])
      case Err(f) => Err(f)
      case Ok(m) =>
        match ParseLine(lines[|lines| - 1])
        case Err(f) => Err(f)
        case Ok(entry) => Ok(m[entry.0 := entry.1])
  }

  /** The input parses exactly when every line does. */
  lemma {:induction false} ParseMonkeysOk(lines: seq<string>)
    ensures ParseMonkeys(lines).Ok? <==> forall i :: 0 <= i < |lines| ==> ParseLine(lines[i]).Ok?
  {
    if lines != [] {
      var front := lines[..|lines| - 1];
      ParseMonkeysOk(front);
      assert lines == front + [lines[|lines| - 1]];
    }
  }

  /** Every monkey in the map comes from one of the lines. */
  lemma {:induction false} ParseMonkeysFrom(lines: seq<string>, k: string)
    requires ParseMonkeys(lines).Ok? && k in ParseMonkeys(lines).value
    ensures exists i :: 0 <= i < |lines| && ParseLine(lines[i]) == Ok((k, ParseMonkeys(lines).value[k]))
  {
    var front := lines[..|lines| - 1];
    var entry := ParseLine(lines[|lines| - 1]).value;
    var m := ParseMonkeys(lines).value;
    if k == entry.0 {
      assert ParseLine(lines[|lines| - 1]) == Ok((k, m[k]));
    } else {
      ParseMonkeysFrom(front, k);
      var i :| 0 <= i < |front| && ParseLine(front[i]) == Ok((k, ParseMonkeys(front).value[k]));
      assert lines[i] == front[i];
    }
  }
}
