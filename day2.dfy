/** Day 2: rock-paper-scissors rounds and their scores. */
module Day2 {
  import opened Common
  import opened Text

  datatype Shape = Rock | Paper | Scissors
  datatype Outcome = Loss | Draw | Win

  /** A round from my point of view. */
  datatype Round = Round(mine: Shape, theirs: Shape)

  /** The discriminants of `Shape`: Rock = 1, Paper = 2, Scissors = 3. */
  function ShapeValue(s: Shape): (v: nat)
    ensures 1 <= v <= 3
  {
    match s
      case Rock => 1
      case Paper => 2
      case Scissors => 3
  }

  /** The discriminants of `Outcome`: Loss = 0, Draw = 3, Win = 6. */
  function OutcomeValue(o: Outcome): (v: nat)
    ensures v == 0 || v == 3 || v == 6
  {
    match o
      case Loss => 0
      case Draw => 3
      case Win => 6
  }

  /** `From<&str> for Shape`: "A"/"X" is Rock, "B"/"Y" Paper, "C"/"Z" Scissors;
   *  anything else panics. */
  function ParseShape(raw: string): (r: Result<Shape>)
    ensures r.Ok? <==> raw in {"A", "B", "C", "X", "Y", "Z"}
    ensures r.Err? ==> r.failure == Panic
    ensures raw == "A" || raw == "X" ==> r == Ok(Rock)
    ensures raw == "B" || raw == "Y" ==> r == Ok(Paper)
    ensures raw == "C" || raw == "Z" ==> r == Ok(Scissors)
  {
    if raw == "A" || raw == "X" then Ok(Rock)
    else if raw == "B" || raw == "Y" then Ok(Paper)
    else if raw == "C" || raw == "Z" then Ok(Scissors)
    else Err(Panic)
  }

  /** `From<&str> for Outcome`: "X" is Loss, "Y" Draw, "Z" Win; anything else
   *  panics. */
  function ParseOutcome(raw: string): (r: Result<Outcome>)
    ensures r.Ok? <==> raw in {"X", "Y", "Z"}
    ensures r.Err? ==> r.failure == Panic
    ensures raw == "X" ==> r == Ok(Loss)
    ensures raw == "Y" ==> r == Ok(Draw)
    ensures raw == "Z" ==> r == Ok(Win)
  {
    if raw == "X" then Ok(Loss)
    else if raw == "Y" then Ok(Draw)
    else if raw == "Z" then Ok(Win)
    else Err(Panic)
  }

  /** The rule of the game, stated independently of `play`. */
  predicate Beats(a: Shape, b: Shape)
  {
    (a == Rock && b == Scissors) || (a == Paper && b == Rock) || (a == Scissors && b == Paper)
  }

  /** `Round::play`: the outcome for `mine` against `theirs`. */
  function Play(mine: Shape, theirs: Shape): (o: Outcome)
    ensures o == Win <==> Beats(mine, theirs)
    ensures o == Loss <==> Beats(theirs, mine)
    ensures o == Draw <==> mine == theirs
  {
    match (mine, theirs)
      case (Rock, Paper) => Loss
      case (Paper, Rock) => Win
      case (Paper, Scissors) => Loss
      case (Scissors, Paper) => Win
      case (Scissors, Rock) => Loss
      case (Rock, Scissors) => Win
      case _ => Draw
  }

  /** Swapping the two shapes swaps Win and Loss and keeps Draw. */
  lemma PlaySwap(a: Shape, b: Shape)
    ensures Play(a, b) == Win <==> Play(b, a) == Loss
    ensures Play(a, b) == Draw <==> Play(b, a) == Draw
  {
  }

  /** `Round::new_from_indended_outcome`: the first of Rock, Paper, Scissors
   *  that gives the wanted outcome against `theirs`; one always exists, so
   *  the `unreachable!` is never hit. */
  function FromIntendedOutcome(theirs: Shape, outcome: Outcome): (r: Round)
    ensures r.theirs == theirs && Play(r.mine, r.theirs) == outcome
  {
    if Play(Rock, theirs) == outcome then Round(Rock, theirs)
    else if Play(Paper, theirs) == outcome then Round(Paper, theirs)
    else Round(Scissors, theirs)
  }

  /** The score of one round: my shape's value plus the outcome's value. */
  function Score(r: Round): (s: nat)
    ensures 1 <= s <= 9
    ensures s % 3 == ShapeValue(r.mine) % 3
  {
    ShapeValue(r.mine) + OutcomeValue(Play(r.mine, r.theirs))
  }

  /** Part 1 lines, "<their shape> <my shape>"; a missing word panics. */
  function ParseShapesLine(line: string): (r: Result<Round>)
    ensures r.Ok? ==> var w := Split(line, " ");
      |w| >= 2 && ParseShape(w[0]) == Ok(r.value.theirs) && ParseShape(w[1]) == Ok(r.value.mine)
  {
    var w := Split(line, " ");
    match ParseShape(w[0])
      case Err(f) => Err(f)
      case Ok(theirs) =>
        if |w| < 2 then Err(Panic)
        else match ParseShape(w[1])
          case Err(f) => Err(f)
          case Ok(mine) => Ok(Round(mine, theirs))
  }

  /** Part 2 lines, "<their shape> <wanted outcome>". */
  function ParseOutcomeLine(line: string): (r: Result<Round>)
    ensures r.Ok? ==> var w := Split(line, " ");
      |w| >= 2 && ParseShape(w[0]) == Ok(r.value.theirs) &&
      ParseOutcome(w[1]).Ok? && Play(r.value.mine, r.value.theirs) == ParseOutcome(w[1]).value
  {
    var w := Split(line, " ");
    match ParseShape(w[0])
      case Err(f) => Err(f)
      case Ok(theirs) =>
        if |w| < 2 then Err(Panic)
        else match ParseOutcome(w[1])
          case Err(f) => Err(f)
          case Ok(outcome) => Ok(FromIntendedOutcome(theirs, outcome))
  }

  /** The total of a strategy guide, the fold in `main`. */
  function TotalScore(rounds: seq<Round>): nat
  {
    if rounds == [] then 0 else Score(rounds[0]) + TotalScore(rounds[1..])
  }

  lemma {:induction false} TotalScoreBounds(rounds: seq<Round>)
    ensures |rounds| <= TotalScore(rounds) <= 9 * |rounds|
  {
    if rounds != [] {
      TotalScoreBounds(rounds[1..]);
    }
  }
}
