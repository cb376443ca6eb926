/** Day 4: pairs of section ranges, "a-b,c-d", and their overlaps. */
module Day4 {
  import opened Common
  import opened Text

  /** An inclusive range of section ids. */
  datatype Pair = Pair(start: nat, end: nat)

  datatype Sections = Sections(first: Pair, second: Pair)

  /** `Pair::from_str`: "a-b" with a and b u32 values. A missing second part
   *  panics; a part that is not a u32 is an error. */
  function ParsePair(s: string): (r: Result<Pair>)
    ensures r.Ok? ==> var w := Split(s, "-");
      |w| >= 2 && ParseUnsigned(w[0], U32_MAX) == Some(r.value.start) &&
      ParseUnsigned(w[1], U32_MAX) == Some(r.value.end)
  {
    var w := Split(s, "-");
    match ParseUnsigned(w[0], U32_MAX)
      case None => Err(Error)
      case Some(start) =>
        if |w| < 2 then Err(Panic)
        else match ParseUnsigned(w[1], U32_MAX)
          case None => Err(Error)
          case Some(end) => Ok(Pair(start, end))
  }

  /** `Sections::from_str`: two pairs separated by a comma. */
  function ParseSections(s: string): (r: Result<Sections>)
    ensures r.Ok? ==> var w := Split(s, ",");
      |w| >= 2 && ParsePair(w[0]) == Ok(r.value.first) && ParsePair(w[1]) == Ok(r.value.second)
  {
    var w := Split(s, ",");
    match ParsePair(w[0])
      case Err(f) => Err(f)
      case Ok(first) =>
        if |w| < 2 then Err(Panic)
        else match ParsePair(w[1])
          case Err(f) => Err(f)
          case Ok(second) => Ok(Sections(first, second))
  }

  function FormatPair(p: Pair): string
  {
    Join([NatToString(p.start), NatToString(p.end)], "-")
  }

  function FormatSections(s: Sections): string
  {
    Join([FormatPair(s.first), FormatPair(s.second)], ",")
  }

  lemma DigitsNoChar(n: nat, c: char)
    requires !IsDigit(c)
    ensures NoChar(NatToString(n), c)
  {
    var s := NatToString(n);
    forall i | 0 <= i < |s| ensures s[i] != c {
      assert IsDigit(s[i]);
    }
  }

  lemma FormatPairNoComma(p: Pair)
    ensures NoChar(FormatPair(p), ',')
  {
    DigitsNoChar(p.start, ',');
    DigitsNoChar(p.end, ',');
    var parts := [NatToString(p.start), NatToString(p.end)];
    assert parts[1..] == [NatToString(p.end)];
    assert Join(parts[1..], "-") == NatToString(p.end);
    assert FormatPair(p) == NatToString(p.start) + "-" + NatToString(p.end);
  }

  /** Parsing the text of two u32 ranges gives them back. */
  lemma ParseFormatted(s: Sections)
    requires s.first.start <= U32_MAX && s.first.end <= U32_MAX
    requires s.second.start <= U32_MAX && s.second.end <= U32_MAX
    ensures ParseSections(FormatSections(s)) == Ok(s)
  {
    FormatPairNoComma(s.first);
    FormatPairNoComma(s.second);
    SplitJoin([FormatPair(s.first), FormatPair(s.second)], ',');
    forall p: Pair | p.start <= U32_MAX && p.end <= U32_MAX ensures ParsePair(FormatPair(p)) == Ok(p) {
      DigitsNoChar(p.start, '-');
      DigitsNoChar(p.end, '-');
      SplitJoin([NatToString(p.start), NatToString(p.end)], '-');
      ParseNatToString(p.start, U32_MAX);
      ParseNatToString(p.end, U32_MAX);
    }
  }

  predicate In(x: int, p: Pair) { p.start <= x <= p.end }

  /** Every section of b is a section of a. */
  ghost predicate Covers(a: Pair, b: Pair) { forall x :: In(x, b) ==> In(x, a) }

  /** `Sections::fully_overlaps`: one range's bounds enclose the other's. */
  predicate FullyOverlaps(s: Sections)
  {
    (s.first.start <= s.second.start && s.first.end >= s.second.end) ||
    (s.first.start >= s.second.start && s.first.end <= s.second.end)
  }

  /** `Sections::overlaps`: one range contains the other's start. */
  predicate Overlaps(s: Sections)
  {
    In(s.second.start, s.first) || In(s.first.start, s.second)
  }

  /** Both tests are symmetric in the two ranges. */
  lemma Symmetric(s: Sections)
    ensures FullyOverlaps(s) == FullyOverlaps(Sections(s.second, s.first))
    ensures Overlaps(s) == Overlaps(Sections(s.second, s.first))
  {
  }

  /** For proper ranges, `fully_overlaps` means one range contains every
   *  section of the other. */
  lemma FullyOverlapsMeaning(s: Sections)
    requires s.first.start <= s.first.end && s.second.start <= s.second.end
    ensures FullyOverlaps(s) <==> Covers(s.first, s.second) || Covers(s.second, s.first)
  {
    if Covers(s.first, s.second) {
      assert In(s.second.start, s.second) && In(s.second.end, s.second);
    }
    if Covers(s.second, s.first) {
      assert In(s.first.start, s.first) && In(s.first.end, s.first);
    }
  }

  /** For proper ranges, `overlaps` means the ranges share a section. */
  lemma OverlapsMeaning(s: Sections)
    requires s.first.start <= s.first.end && s.second.start <= s.second.end
    ensures Overlaps(s) <==> exists x :: In(x, s.first) && In(x, s.second)
  {
    if Overlaps(s) {
      var x := Max(s.first.start, s.second.start);
      assert In(x, s.first) && In(x, s.second);
    }
  }

  /** For proper ranges, a full overlap is an overlap. */
  lemma FullyImpliesOverlaps(s: Sections)
    requires s.first.start <= s.first.end && s.second.start <= s.second.end
    ensures FullyOverlaps(s) ==> Overlaps(s)
  {
  }
}
