/** Day 25: balanced base-5 ("SNAFU") numbers. The digits '=', '-', '0', '1'
 *  and '2' stand for -2, -1, 0, 1 and 2, most significant digit first. */
module Day25 {
  import opened Common

  predicate IsSnafuDigit(c: char) { c == '=' || c == '-' || c == '0' || c == '1' || c == '2' }

  predicate IsSnafu(s: string) { forall i :: 0 <= i < |s| ==> IsSnafuDigit(s[i]) }

  /** The digit mapping of `parse_snafu`. */
  function DigitOf(c: char): (d: int)
    requires IsSnafuDigit(c)
    ensures -2 <= d <= 2
  {
    match c
      case '=' => -2
      case '-' => -1
      case '0' => 0
      case '1' => 1
      case '2' => 2
  }

  /** The character `print_snafu` emits for a digit in -2..2. */
  function CharOf(d: int): (c: char)
    requires -2 <= d <= 2
    ensures IsSnafuDigit(c) && DigitOf(c) == d
  {
    if d == -2 then '=' else if d == -1 then '-' else if d == 0 then '0' else if d == 1 then '1' else '2'
  }

  function Pow5(n: nat): (r: nat)
    ensures r >= 1
  {
    if n == 0 then 1 else 5 * Pow5(n - 1)
  }

  /** The value of a SNAFU string, most significant digit first (Horner form). */
  function SnafuValue(s: string): (r: int)
    requires IsSnafu(s)
    ensures 2 * Abs(r) <= Pow5(|s|) - 1
    decreases |s|
  {
    if s == [] then 0 else SnafuValue(s[..|s| - 1]) * 5 + DigitOf(s[|s| - 1])
  }

  /** The value of digits written least significant first, as `print_snafu`
   *  pushes them before reversing. */
  function LowFirstValue(s: string): int
    requires IsSnafu(s)
    decreases |s|
  {
    if s == [] then 0 else DigitOf(s[0]) + 5 * LowFirstValue(s[1..])
  }

  /** The digit-by-digit form of `parse_snafu`: sum of d_i * 5^(n-1-i) over the
   *  first k digits, scaled so that the positional weights are those of the
   *  whole string. */
  lemma ParseStep(v: int, d: int, m: nat)
    ensures v * Pow5(m + 1) + d * Pow5(m) == (v * 5 + d) * Pow5(m)
  {
    calc {
      v * Pow5(m + 1) + d * Pow5(m);
      v * (5 * Pow5(m)) + d * Pow5(m);
      { assert v * (5 * Pow5(m)) == (v * 5) * Pow5(m); }
      (v * 5) * Pow5(m) + d * Pow5(m);
      (v * 5 + d) * Pow5(m);
    }
  }

  /** `parse_snafu`: every character contributes its digit times 5 to the power
   *  of its distance from the end; any other character panics. */
  method ParseSnafu(s: string) returns (r: Result<int>)
    ensures r.Ok? <==> IsSnafu(s)
    ensures r.Ok? ==> r.value == SnafuValue(s)
    ensures r.Err? ==> r.failure == Panic
  {
    var num := 0;
    var i := 0;
    while i < |s|
      invariant 0 <= i <= |s|
      invariant IsSnafu(s[..i])
      invariant num == SnafuValue(s[..i]) * Pow5(|s| - i)
    {
      var c := s[i];
      if !IsSnafuDigit(c) {
        return Err(Panic);
      }
      var pos := |s| - 1 - i;
      ParseStep(SnafuValue(s[..i]), DigitOf(c), pos);
      num := num + DigitOf(c) * Pow5(pos);
      assert s[..i + 1][..i] == s[..i];
      i := i + 1;
    }
    assert s[..i] == s;
    return Ok(num);
  }

  lemma {:induction false} LowFirstAppend(s: string, c: char)
    requires IsSnafu(s) && IsSnafuDigit(c)
    ensures IsSnafu(s + [c])
    ensures LowFirstValue(s + [c]) == LowFirstValue(s) + DigitOf(c) * Pow5(|s|)
    decreases |s|
  {
    if s == [] {
    } else {
      assert (s + [c])[1..] == s[1..] + [c];
      LowFirstAppend(s[1..], c);
      calc {
        LowFirstValue(s + [c]);
        DigitOf(s[0]) + 5 * LowFirstValue(s[1..] + [c]);
        DigitOf(s[0]) + 5 * (LowFirstValue(s[1..]) + DigitOf(c) * Pow5(|s| - 1));
        { assert 5 * (DigitOf(c) * Pow5(|s| - 1)) == DigitOf(c) * (5 * Pow5(|s| - 1)); }
        LowFirstValue(s) + DigitOf(c) * Pow5(|s|);
      }
    }
  }

  /** Reversing least-significant-first digits gives the usual reading. */
  lemma {:induction false} ReverseValue(s: string)
    requires IsSnafu(s)
    ensures IsSnafu(Reverse(s)) && SnafuValue(Reverse(s)) == LowFirstValue(s)
    decreases |s|
  {
    if s != [] {
      ReverseValue(s[1..]);
      var r := Reverse(s);
      assert r == Reverse(s[1..]) + [s[0]];
      assert r[..|r| - 1] == Reverse(s[1..]);
    }
  }

  lemma Shift(low: int, n: int, d: int, k: nat)
    ensures low + (5 * n + d) * Pow5(k) == (low + d * Pow5(k)) + n * Pow5(k + 1)
  {
    assert (5 * n + d) * Pow5(k) == n * (5 * Pow5(k)) + d * Pow5(k);
  }

  /** `print_snafu`, returning the text it prints. */
  method PrintSnafu(num: int) returns (res: string)
    ensures num <= 0 ==> res == []
    ensures num > 0 ==> |res| > 0 && (res[0] == '1' || res[0] == '2')
    ensures IsSnafu(res)
    ensures num > 0 ==> SnafuValue(res) == num
  {
    var n := num;
    var acc: string := [];
    while n > 0
      invariant IsSnafu(acc)
      invariant num > 0 ==> n >= 0
      invariant num > 0 ==> num == LowFirstValue(acc) + n * Pow5(|acc|)
      invariant num <= 0 ==> acc == [] && n == num
      invariant n == 0 && |acc| > 0 ==> acc[|acc| - 1] == '1' || acc[|acc| - 1] == '2'
      decreases n
    {
      ghost var before := n;
      var rem := n % 5;
      n := n / 5;
      if rem == 3 {
        rem := -2;
        n := n + 1;
      }
      if rem == 4 {
        rem := -1;
        n := n + 1;
      }
      assert before == 5 * n + rem;
      var c := CharOf(rem);
      LowFirstAppend(acc, c);
      Shift(LowFirstValue(acc), n, rem, |acc|);
      acc := acc + [c];
    }
    ReverseValue(acc);
    res := Reverse(acc);
  }

  /** Printing a positive number and parsing the text back gives the number. */
  method ParsePrinted(num: int) returns (r: Result<int>)
    requires num > 0
    ensures r == Ok(num)
  {
    var text := PrintSnafu(num);
    r := ParseSnafu(text);
  }
  /** Every line is a SNAFU number. */
  predicate AllSnafu(lines: seq<string>)
  {
    forall i :: 0 <= i < |lines| ==> IsSnafu(lines[i])
  }

  /** The sum of the values of the lines. */
  function Total(lines: seq<string>): int
    requires AllSnafu(lines)
    decreases |lines|
  {
    if lines == [] then 0 else Total(lines[..|lines| - 1]) + SnafuValue(lines[|lines| - 1])
  }

  /** `main`: parse every line, sum the numbers and print the sum in SNAFU.
   *  A line that is not SNAFU panics; a positive sum prints as text whose
   *  value is the sum. */
  method Solve(lines: seq<string>) returns (r: Result<(int, string)>)
    ensures r.Ok? <==> AllSnafu(lines)
    ensures r.Err? ==> r.failure == Panic
    ensures r.Ok? ==> r.value.0 == Total(lines) && IsSnafu(r.value.1)
    ensures r.Ok? && r.value.0 > 0 ==> SnafuValue(r.value.1) == r.value.0
    ensures r.Ok? && r.value.0 <= 0 ==> r.value.1 == []
  {
    var sum := 0;
    var i := 0;
    while i < |lines|
      invariant 0 <= i <= |lines|
      invariant AllSnafu(lines[..i]) && sum == Total(lines[..i])
    {
      var n := ParseSnafu(lines[i]);
      if n.Err? {
        assert !IsSnafu(lines[i]);
        return Err(Panic);
      }
      assert lines[..i + 1][..i] == lines[..i];
      sum := sum + n.value;
      i := i + 1;
    }
    assert lines[..i] == lines;
    var text := PrintSnafu(sum);
    r := Ok((sum, text));
  }
}
