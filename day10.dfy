/** Day 10: a two-instruction CPU with one register `x`, and the CRT beam
 *  that sweeps a 40-pixel row, one pixel per cycle. */
module Day10 {
  import opened Common
  import opened Text

  datatype Instruction = Add(n: int) | Noop

  /** `Instruction::from_str`: "addx n" (a missing operand panics, a bad one
   *  is an error), "noop", anything else an error. */
  function ParseInstruction(s: string): (r: Result<Instruction>)
    ensures r.Ok? && r.value.Noop? <==> Split(s, " ")[0] == "noop"
    ensures r.Ok? && r.value.Add? <==>
      Split(s, " ")[0] == "addx" && |Split(s, " ")| >= 2 && ParseSigned(Split(s, " ")[1], I32_MIN, I32_MAX).Some?
    ensures r.Ok? && r.value.Add? ==> ParseSigned(Split(s, " ")[1], I32_MIN, I32_MAX) == Some(r.value.n)
    ensures r == Err(Panic) <==> Split(s, " ")[0] == "addx" && |Split(s, " ")| < 2
  {
    var words := Split(s, " ");
    if words[0] == "addx" then
      if |words| < 2 then Err(Panic)
      else match ParseSigned(words[1], I32_MIN, I32_MAX)
        case Some(n) => Ok(Add(n))
        case None => Err(Error)
    else if words[0] == "noop" then Ok(Noop)
    else Err(Error)
  }

  /** The value of `x` during each cycle of a program run from register value x. */
  function TraceFrom(program: seq<Instruction>, x: int): (t: seq<int>)
  {
    if program == [] then []
    else match program[0]
      case Noop => [x] + TraceFrom(program[1..], x)
      case Add(n) => [x, x] + TraceFrom(program[1..], x + n)
  }

  /** `x` during each cycle of the whole program, starting from 1. */
  function Trace(program: seq<Instruction>): seq<int>
  {
    TraceFrom(program, 1)
  }

  function AddSum(program: seq<Instruction>): int
  {
    if program == [] then 0 else (if program[0].Add? then program[0].n else 0) + AddSum(program[1..])
  }

  function CycleCount(program: seq<Instruction>): nat
  {
    if program == [] then 0 else (if program[0].Add? then 2 else 1) + CycleCount(program[1..])
  }

  /** The trace has one entry per noop and two per addx. */
  lemma {:induction false} TraceLength(program: seq<Instruction>, x: int)
    ensures |TraceFrom(program, x)| == CycleCount(program)
  {
    if program != [] {
      match program[0]
      case Noop => TraceLength(program[1..], x);
      case Add(n) => TraceLength(program[1..], x + n);
    }
  }

  /** Running a program in two pieces: the second starts from the register the
   *  first leaves. */
  lemma {:induction false} TraceSplit(program: seq<Instruction>, k: nat, x: int)
    requires k <= |program|
    ensures TraceFrom(program, x) == TraceFrom(program[..k], x) + TraceFrom(program[k..], x + AddSum(program[..k]))
  {
    if k > 0 {
      assert program[..k][1..] == program[1..][..k - 1];
      assert program[k..] == program[1..][k - 1..];
      match program[0]
      case Noop => TraceSplit(program[1..], k - 1, x);
      case Add(n) => TraceSplit(program[1..], k - 1, x + n);
    } else {
      assert program[..k] == [] && program[k..] == program;
    }
  }

  lemma AddSumStep(program: seq<Instruction>, k: nat)
    requires k < |program|
    ensures AddSum(program[..k + 1]) == AddSum(program[..k]) + (if program[k].Add? then program[k].n else 0)
    ensures CycleCount(program[..k + 1]) == CycleCount(program[..k]) + (if program[k].Add? then 2 else 1)
  {
    AddSumAppend(program[..k], [program[k]]);
    assert program[..k + 1] == program[..k] + [program[k]];
  }

  lemma {:induction false} AddSumAppend(a: seq<Instruction>, b: seq<Instruction>)
    ensures AddSum(a + b) == AddSum(a) + AddSum(b)
    ensures CycleCount(a + b) == CycleCount(a) + CycleCount(b)
  {
    if a != [] {
      assert (a + b)[1..] == a[1..] + b;
      AddSumAppend(a[1..], b);
    } else {
      assert a + b == b;
    }
  }

  /** The register during the first or second cycle of instruction pc is 1
   *  plus the operands of the addx instructions before it. */
  lemma TraceAt(program: seq<Instruction>, pc: nat, second: bool)
    requires pc < |program| && (second ==> program[pc].Add?)
    ensures var i := CycleCount(program[..pc]) + (if second then 1 else 0);
      i < |Trace(program)| && Trace(program)[i] == 1 + AddSum(program[..pc])
  {
    var x := 1 + AddSum(program[..pc]);
    TraceSplit(program, pc, 1);
    TraceLength(program[..pc], 1);
    TraceLength(program[pc..], x);
    var rest := TraceFrom(program[pc..], x);
    var k := if second then 1 else 0;
    assert Trace(program) == TraceFrom(program[..pc], 1) + rest;
    assert k < |rest| && rest[k] == x;
  }

  class Processor {
    const program: seq<Instruction>
    var cycle: nat
    var pc: nat
    var x: int
    var tempX: int
    var execAdd: bool
    /** Steps taken after the program ended. */
    ghost var overrun: nat

    /** Cycles spent on the instructions so far, the pending half of an addx included. */
    ghost function Busy(): nat
      reads this
      requires pc <= |program|
    {
      CycleCount(program[..pc]) + (if execAdd then 1 else 0)
    }

    ghost predicate Valid()
      reads this
    {
      pc <= |program| &&
      (execAdd ==> pc < |program| && program[pc].Add?) &&
      tempX == 1 + AddSum(program[..pc]) &&
      cycle == Busy() + overrun &&
      (overrun > 0 ==> pc == |program|)
    }

    /** `Processor::new`. */
    constructor(program: seq<Instruction>)
      ensures Valid() && this.program == program
      ensures cycle == 0 && pc == 0 && x == 1 && tempX == 1 && !execAdd && overrun == 0
    {
      this.program := program;
      cycle, pc, x, tempX, execAdd := 0, 0, 1, 1, false;
      overrun := 0;
      new;
      assert program[..0] == [];
    }

    /** `Processor::step`: one clock cycle. The `x` seen during the cycle is the
     *  register as the previous cycle left it. */
    method Step() returns (r: Option<nat>)
      requires Valid()
      modifies this
      ensures Valid()
      ensures cycle == old(cycle) + 1 && x == old(tempX)
      ensures r.None? <==> old(pc) == |program|
      ensures r.Some? ==> r.value == cycle && overrun == old(overrun) && 1 <= cycle <= |Trace(program)|
      ensures r.Some? ==> x == Trace(program)[cycle - 1]
      ensures r.Some? ==> pc == old(pc) + 1 || (pc == old(pc) && execAdd && !old(execAdd))
      ensures r.None? ==> unchanged(`pc, `tempX, `execAdd) && overrun == old(overrun) + 1
      ensures pc == |program| ==> tempX == 1 + AddSum(program) && Busy() == |Trace(program)|
    {
      ghost var busy := Busy();
      cycle := cycle + 1;
      x := tempX;
      if pc < |program| {
        TraceAt(program, pc, execAdd);
        AddSumStep(program, pc);
        match program[pc] {
          case Add(n) =>
            if !execAdd {
              execAdd := true;
            } else {
              tempX := tempX + n;
              pc := pc + 1;
              execAdd := false;
            }
          case Noop =>
            pc := pc + 1;
        }
        r := Some(cycle);
        assert Busy() == busy + 1;
      } else {
        overrun := overrun + 1;
        r := None;
      }
      if pc == |program| {
        assert program[..pc] == program;
        TraceLength(program, 1);
      }
    }
  }

  /** The cycles whose signal strength is summed. */
  const TraceCycles: seq<nat> := [20, 60, 100, 140, 180, 220]

  /** The sum of cycle * x over the traced cycles among the first n. */
  function Signal(trace: seq<int>, n: nat): int
    requires n <= |trace|
  {
    if n == 0 then 0 else Signal(trace, n - 1) + (if n in TraceCycles then n * trace[n - 1] else 0)
  }

  /** The CRT: during cycle i + 1 the beam draws column i mod 40, lit when the
   *  three-pixel sprite centred on x covers it. */
  function Pixels(trace: seq<int>, n: nat): seq<bool>
    requires n <= |trace|
  {
    if n == 0 then [] else Pixels(trace, n - 1) + [Abs(trace[n - 1] - (n - 1) % 40) < 2]
  }

  /** Pixel i is lit iff the sprite centred on x during cycle i + 1 covers
   *  column i mod 40. */
  lemma {:induction false} PixelsMeaning(trace: seq<int>, n: nat)
    requires n <= |trace|
    ensures |Pixels(trace, n)| == n
    ensures forall i :: 0 <= i < n ==> (Pixels(trace, n)[i] <==> Abs(trace[i] - i % 40) < 2)
  {
    if n > 0 {
      PixelsMeaning(trace, n - 1);
    }
  }

  /** The beam: the column it is drawing. */
  class Beam {
    var position: int

    ghost predicate Valid()
      reads this
    {
      0 <= position < 40
    }

    /** `Beam::default`. */
    constructor()
      ensures Valid() && position == 0
    {
      position := 0;
    }

    /** `Beam::step`: advance one column, wrapping after 40; true on the wrap. */
    method Step() returns (wrapped: bool)
      requires Valid()
      modifies this
      ensures Valid()
      ensures position == (old(position) + 1) % 40
      ensures wrapped <==> old(position) == 39
    {
      position := (position + 1) % 40;
      wrapped := position == 0;
    }

    /** `Beam::is_lit`. */
    predicate IsLit(x: int)
      reads this
    {
      Abs(x - position) < 2
    }
  }

  /** Advancing the beam column by one, with wrap-around, follows the cycle. */
  lemma ColumnStep(c: nat, p: int)
    requires c >= 1 && p == (c - 1) % 40
    ensures (p + 1) % 40 == c % 40
  {
    var q, r := (c - 1) / 40, (c - 1) % 40;
    assert c == 40 * q + r + 1;
    if r == 39 {
      assert c == 40 * (q + 1) + 0;
    } else {
      assert c == 40 * q + (r + 1);
    }
  }

  /** One more cycle of output: its signal contribution and its pixel. */
  lemma OutputStep(trace: seq<int>, c: nat)
    requires 1 <= c <= |trace|
    ensures Signal(trace, c) == Signal(trace, c - 1) + (if c in TraceCycles then c * trace[c - 1] else 0)
    ensures Pixels(trace, c) == Pixels(trace, c - 1) + [Abs(trace[c - 1] - (c - 1) % 40) < 2]
  {
  }

  /** The loop of `main`: step the processor until it stops, summing the signal
   *  strength on the traced cycles and deciding each pixel. */
  method Run(program: seq<Instruction>) returns (result: int, pixels: seq<bool>)
    ensures result == Signal(Trace(program), |Trace(program)|)
    ensures pixels == Pixels(Trace(program), |Trace(program)|)
  {
    var processor := new Processor(program);
    var beam := new Beam();
    ghost var trace := Trace(program);
    result := 0;
    pixels := [];
    var r := processor.Step();
    while r.Some?
      invariant processor.Valid() && beam.Valid() && processor.program == program
      invariant r.Some? ==> processor.cycle == r.value && 1 <= r.value <= |trace| && processor.x == trace[r.value - 1]
      invariant r.Some? ==> processor.overrun == 0
      invariant r.None? ==> processor.pc == |program| && processor.overrun == 1 && processor.cycle == |trace| + 1
      invariant 1 <= processor.cycle
      invariant processor.cycle - 1 <= |trace|
      invariant result == Signal(trace, processor.cycle - 1)
      invariant pixels == Pixels(trace, processor.cycle - 1)
      invariant beam.position == (processor.cycle - 1) % 40
      decreases |program| - processor.pc, if processor.execAdd then 0 else 1, if r.Some? then 1 else 0
    {
      var cycle := r.value;
      if cycle in TraceCycles {
        result := result + cycle * processor.x;
      }
      pixels := pixels + [beam.IsLit(processor.x)];
      ColumnStep(cycle, beam.position);
      var _ := beam.Step();
      OutputStep(trace, cycle);
      r := processor.Step();
    }
    TraceLength(program, 1);
  }
}
