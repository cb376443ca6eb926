/** Text helpers shared by the solvers: Rust's `str::parse` for integer types,
 *  decimal printing, and `str::split` on a separator. */
module Text {
  import opened Common

  const U32_MAX: nat := 0xFFFF_FFFF
  const U64_MAX: nat := 0xFFFF_FFFF_FFFF_FFFF
  const I32_MIN: int := -0x8000_0000
  const I32_MAX: int := 0x7FFF_FFFF
  const I64_MIN: int := -0x8000_0000_0000_0000
  const I64_MAX: int := 0x7FFF_FFFF_FFFF_FFFF

  predicate IsDigit(c: char) { '0' <= c <= '9' }

  function DigitValue(c: char): (d: nat)
    requires IsDigit(c)
    ensures d < 10
  {
    (c as int) - ('0' as int)
  }

  function DigitChar(d: nat): (c: char)
    requires d < 10
    ensures IsDigit(c) && DigitValue(c) == d
  {
    (('0' as int) + d) as char
  }

  predicate AllDigits(s: string) { forall i :: 0 <= i < |s| ==> IsDigit(s[i]) }

  /** The value of a string of decimal digits, most significant first. */
  function DigitsValue(s: string): nat
    requires AllDigits(s)
    decreases |s|
  {
    if s == [] then 0 else DigitsValue(s[..|s| - 1]) * 10 + DigitValue(s[|s| - 1])
  }

  /** Rust's `str::parse` for an unsigned integer type whose largest value is
   *  `max`: an optional '+', then at least one digit and nothing else, and a
   *  value that fits. None stands for the `ParseIntError`. */
  function ParseUnsigned(s: string, max: nat): (r: Option<nat>)
    ensures r.Some? <==> (var d := if |s| > 0 && s[0] == '+' then s[1..] else s;
                          |d| > 0 && AllDigits(d) && DigitsValue(d) <= max)
    ensures r.Some? ==> r.value <= max
  {
    var d := if |s| > 0 && s[0] == '+' then s[1..] else s;
    if |d| > 0 && AllDigits(d) && DigitsValue(d) <= max then Some(DigitsValue(d)) else None
  }

  /** Rust's `str::parse` for a signed integer type with range [min, max]: an
   *  optional '+' or '-', then at least one digit and nothing else. */
  function ParseSigned(s: string, min: int, max: int): (r: Option<int>)
    ensures r.Some? ==> min <= r.value <= max
    ensures r.Some? ==> |s| > 0 && (s[0] == '-' <==> r.value < 0 || (r.value == 0 && s[0] == '-'))
  {
    if |s| > 0 && s[0] == '-' then
      var d := s[1..];
      if |d| > 0 && AllDigits(d) && min <= -(DigitsValue(d) as int) <= max then Some(-(DigitsValue(d) as int)) else None
    else
      var d := if |s| > 0 && s[0] == '+' then s[1..] else s;
      if |d| > 0 && AllDigits(d) && min <= DigitsValue(d) <= max then Some(DigitsValue(d) as int) else None
  }

  /** Decimal text of n, as Rust's `Display`/`Debug` for unsigned integers. */
  function NatToString(n: nat): (s: string)
    ensures |s| > 0 && AllDigits(s) && s[0] != '+'
    decreases n
  {
    if n < 10 then [DigitChar(n)] else NatToString(n / 10) + [DigitChar(n % 10)]
  }

  lemma {:induction false} NatToStringValue(n: nat)
    ensures DigitsValue(NatToString(n)) == n
    decreases n
  {
    var s := NatToString(n);
    if n < 10 {
      assert s[..0] == [];
    } else {
      assert s[..|s| - 1] == NatToString(n / 10);
      NatToStringValue(n / 10);
    }
  }

  /** Printing then parsing an unsigned value that fits gives it back. */
  lemma ParseNatToString(n: nat, max: nat)
    requires n <= max
    ensures ParseUnsigned(NatToString(n), max) == Some(n)
  {
    NatToStringValue(n);
  }

  /** sep occurs in s at index j. */
  predicate OccursAt(s: string, sep: string, j: nat)
  {
    j + |sep| <= |s| && s[j..j + |sep|] == sep
  }

  /** Index of the first occurrence of the non-empty `sep` in s at or after k. */
  function FindFrom(s: string, sep: string, k: nat): (r: Option<nat>)
    requires |sep| > 0
    ensures r.Some? ==> k <= r.value && OccursAt(s, sep, r.value)
    ensures r.Some? ==> forall j :: k <= j < r.value ==> !OccursAt(s, sep, j)
    ensures r.None? ==> forall j :: k <= j ==> !OccursAt(s, sep, j)
    decreases |s| - k
  {
    if k + |sep| > |s| then None
    else if OccursAt(s, sep, k) then Some(k)
    else FindFrom(s, sep, k + 1)
  }

  /** Rust's `str::split(sep)`: the pieces between non-overlapping occurrences
   *  of sep, found left to right. There is always at least one piece. */
  function Split(s: string, sep: string): (r: seq<string>)
    requires |sep| > 0
    ensures |r| >= 1
    decreases |s|
  {
    match FindFrom(s, sep, 0)
      case None => [s]
      case Some(i) => [s[..i]] + Split(s[i + |sep|..], sep)
  }

  function Join(parts: seq<string>, sep: string): string
  {
    if parts == [] then [] else if |parts| == 1 then parts[0] else parts[0] + sep + Join(parts[1..], sep)
  }

  /** Joining the pieces with the separator rebuilds the split string. */
  lemma {:induction false} JoinSplit(s: string, sep: string)
    requires |sep| > 0
    ensures Join(Split(s, sep), sep) == s
    decreases |s|
  {
    match FindFrom(s, sep, 0)
      case None =>
      case Some(i) =>
        var rest := s[i + |sep|..];
        var parts := Split(s, sep);
        assert parts == [s[..i]] + Split(rest, sep);
        assert parts[0] == s[..i] && parts[1..] == Split(rest, sep);
        JoinSplit(rest, sep);
        assert Join(parts, sep) == s[..i] + sep + Join(Split(rest, sep), sep);
        assert s == s[..i] + s[i..i + |sep|] + rest;
  }

  /** `str::starts_with`. */
  predicate StartsWith(s: string, prefix: string)
  {
    |prefix| <= |s| && s[..|prefix|] == prefix
  }

  /** `str::strip_prefix`: the rest of `s` after `prefix`, if it starts so. */
  function StripPrefix(s: string, prefix: string): (r: Option<string>)
    ensures r.Some? <==> StartsWith(s, prefix)
    ensures r.Some? ==> prefix + r.value == s
  {
    if |prefix| <= |s| && s[..|prefix|] == prefix then
      assert s == s[..|prefix|] + s[|prefix|..];
      Some(s[|prefix|..])
    else None
  }

  predicate NoChar(s: string, c: char) { forall i :: 0 <= i < |s| ==> s[i] != c }

  /** Splitting on a one-character separator undoes joining pieces that do not
   *  contain it. */
  lemma OccursSingle(s: string, c: char, j: nat)
    ensures OccursAt(s, [c], j) <==> j < |s| && s[j] == c
  {
    if j < |s| {
      assert s[j..j + 1] == [s[j]];
    }
  }

  lemma {:induction false} SplitJoin(parts: seq<string>, c: char)
    requires |parts| >= 1
    requires forall k :: 0 <= k < |parts| ==> NoChar(parts[k], c)
    ensures Split(Join(parts, [c]), [c]) == parts
    decreases |parts|
  {
    var s := Join(parts, [c]);
    if |parts| == 1 {
      forall j: nat ensures !OccursAt(s, [c], j) {
        OccursSingle(s, c, j);
      }
      assert FindFrom(s, [c], 0).None?;
    } else {
      var p := parts[0];
      var rest := Join(parts[1..], [c]);
      assert s == p + [c] + rest;
      OccursSingle(s, c, |p|);
      forall j: nat | j < |p| ensures !OccursAt(s, [c], j) {
        assert s[j] == p[j];
        OccursSingle(s, c, j);
      }
      var i := FindFrom(s, [c], 0).value;
      assert i == |p|;
      assert s[i + 1..] == rest;
      assert s[..i] == p;
      SplitJoin(parts[1..], c);
    }
  }

  /** Splitting on a separator undoes joining pieces that do not contain its
   *  first character. */
  lemma {:induction false} SplitJoinMarked(parts: seq<string>, sep: string)
    requires |parts| >= 1 && |sep| > 0
    requires forall k :: 0 <= k < |parts| ==> NoChar(parts[k], sep[0])
    ensures Split(Join(parts, sep), sep) == parts
    decreases |parts|
  {
    var s := Join(parts, sep);
    if |parts| == 1 {
      forall j: nat | j + |sep| <= |s| ensures !OccursAt(s, sep, j) {
        assert s[j..j + |sep|][0] == s[j];
      }
      assert FindFrom(s, sep, 0).None?;
    } else {
      var p := parts[0];
      var rest := Join(parts[1..], sep);
      assert s == p + sep + rest;
      assert s[|p|..|p| + |sep|] == sep;
      assert OccursAt(s, sep, |p|);
      forall j: nat | j < |p| && j + |sep| <= |s| ensures !OccursAt(s, sep, j) {
        assert s[j..j + |sep|][0] == s[j] == p[j];
      }
      var i := FindFrom(s, sep, 0).value;
      assert i == |p|;
      assert s[i + |sep|..] == rest;
      assert s[..i] == p;
      SplitJoinMarked(parts[1..], sep);
    }
  }
}
